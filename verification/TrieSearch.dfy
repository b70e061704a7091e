/** The three depth-first walks over the trie and what the searches return. */
module TrieSearch {
  import opened Sequences
  import opened TrieView
  import opened TrieInvariants
  import opened StableSort
  import EditDistance

  // ----- The walk -----

  /** The paths a depth-first walk from `p` reports: those satisfying `keep`,
      without entering the children of a path satisfying `cut`. */
  ghost function Visit(v: View, p: string, keep: string -> bool, cut: string -> bool): seq<string>
    requires Tree(v) && p in v
    decreases Size(v, p), |v[p].keys| + 1
  {
    assert HasChildren(v, p, v[p].keys);
    (if keep(p) then [p] else []) + (if cut(p) then [] else VisitChildren(v, p, v[p].keys, keep, cut))
  }

  ghost function VisitChildren(v: View, p: string, keys: seq<char>, keep: string -> bool, cut: string -> bool): seq<string>
    requires Tree(v) && p in v && HasChildren(v, p, keys)
    decreases Size(v, p), |keys|
  {
    if keys == [] then []
    else
      var c := keys[|keys| - 1];
      SizeShrinks(v, p, c);
      VisitChildren(v, p, keys[..|keys| - 1], keep, cut) + Visit(v, p + [c], keep, cut)
  }

  /** No cut on the way from `q[..from]` to `q`, the latter not included. */
  ghost predicate Open(q: string, from: nat, cut: string -> bool) {
    forall k :: from <= k < |q| ==> !cut(q[..k])
  }

  ghost predicate Reported(v: View, p: string, keep: string -> bool, cut: string -> bool, q: string) {
    q in v && p <= q && keep(q) && Open(q, |p|, cut)
  }

  ghost predicate ReportedBelow(v: View, p: string, keys: seq<char>, keep: string -> bool, cut: string -> bool, q: string) {
    q in v && p < q && q[|p|] in keys && keep(q) && Open(q, |p| + 1, cut)
  }

  lemma NoDupConcat<T>(a: seq<T>, b: seq<T>)
    requires NoDup(a) && NoDup(b) && forall x :: x in a ==> x !in b
    ensures NoDup(a + b)
  {
    var s := a + b;
    forall i, j | 0 <= i < j < |s| ensures s[i] != s[j] {
      if i < |a| <= j { assert s[i] in a && s[j] in b; }
    }
  }

  lemma FirstStep(v: View, p: string, q: string)
    requires Tree(v) && p in v && q in v && p < q
    ensures q[|p|] in v[p].keys && p + [q[|p|]] <= q
  {
    WordBelow(v, q, |p| + 1);
    assert q[..|p| + 1] == p + [q[|p|]];
    ChildIsKey(v, p, q[|p|]);
  }

  /** The walk reports each such path exactly once. */
  lemma {:induction false} VisitExact(v: View, p: string, keep: string -> bool, cut: string -> bool)
    requires Tree(v) && p in v
    ensures NoDup(Visit(v, p, keep, cut))
    ensures forall q :: q in Visit(v, p, keep, cut) <==> Reported(v, p, keep, cut, q)
    decreases Size(v, p), |v[p].keys| + 1
  {
    assert HasChildren(v, p, v[p].keys);
    VisitChildrenExact(v, p, v[p].keys, keep, cut);
    var own := if keep(p) then [p] else [];
    var below := if cut(p) then [] else VisitChildren(v, p, v[p].keys, keep, cut);
    NoDupConcat(own, below);
    forall q ensures q in own + below <==> Reported(v, p, keep, cut, q) {
      if q in v && p < q {
        FirstStep(v, p, q);
        assert q[..|p|] == p;
        assert Open(q, |p|, cut) <==> !cut(p) && Open(q, |p| + 1, cut);
        assert q in own + below <==> q in below;
      } else {
        assert q !in below;
        assert p <= q && q in v ==> q == p;
      }
    }
  }

  lemma {:induction false} VisitChildrenExact(v: View, p: string, keys: seq<char>, keep: string -> bool, cut: string -> bool)
    requires Tree(v) && p in v && HasChildren(v, p, keys)
    ensures NoDup(VisitChildren(v, p, keys, keep, cut))
    ensures forall q :: q in VisitChildren(v, p, keys, keep, cut) <==> ReportedBelow(v, p, keys, keep, cut, q)
    decreases Size(v, p), |keys|
  {
    if keys != [] {
      var front, c := keys[..|keys| - 1], keys[|keys| - 1];
      SizeShrinks(v, p, c);
      VisitChildrenExact(v, p, front, keep, cut);
      VisitExact(v, p + [c], keep, cut);
      var a, b := VisitChildren(v, p, front, keep, cut), Visit(v, p + [c], keep, cut);
      forall q ensures q in a + b <==> ReportedBelow(v, p, keys, keep, cut, q) {
        assert p + [c] <= q <==> p < q && q[|p|] == c;
        assert forall d :: d in keys <==> d in front || d == c;
      }
      forall q | q in a ensures q !in b {
        assert q[|p|] in front;
      }
      NoDupConcat(a, b);
    }
  }

  // ----- The order of the walk -----

  /** At place `k`, the paths part: `a` goes on under an earlier child than `b`. */
  ghost predicate Parts(v: View, a: string, b: string, k: nat) {
    && k < |a| && k < |b| && a[..k] == b[..k] && a[..k] in v
    && exists i, j :: 0 <= i < j < |v[a[..k]].keys| && v[a[..k]].keys[i] == a[k] && v[a[..k]].keys[j] == b[k]
  }

  /** A path comes before what is below it and before its later siblings, in the
      order their parent got them. */
  ghost predicate WalkBefore(v: View, a: string, b: string) {
    a < b || exists k :: Parts(v, a, b, k)
  }

  ghost function WalkOrder(v: View): (string, string) -> bool { (a, b) => WalkBefore(v, a, b) }

  lemma SortedConcat<T>(a: seq<T>, b: seq<T>, le: (T, T) -> bool)
    requires Sorted(a, le) && Sorted(b, le) && forall i, j :: 0 <= i < |a| && 0 <= j < |b| ==> le(a[i], b[j])
    ensures Sorted(a + b, le)
  {
  }

  lemma {:induction false} VisitOrdered(v: View, p: string, keep: string -> bool, cut: string -> bool)
    requires Tree(v) && p in v
    ensures Sorted(Visit(v, p, keep, cut), WalkOrder(v))
    decreases Size(v, p), |v[p].keys| + 1
  {
    hide Reported, Open;
    assert HasChildren(v, p, v[p].keys);
    var own := if keep(p) then [p] else [];
    var below := if cut(p) then [] else VisitChildren(v, p, v[p].keys, keep, cut);
    VisitChildrenOrdered(v, p, v[p].keys, keep, cut);
    VisitChildrenExact(v, p, v[p].keys, keep, cut);
    forall i, j | 0 <= i < |own| && 0 <= j < |below| ensures WalkOrder(v)(own[i], below[j]) {
      assert below[j] in below;
    }
    SortedConcat(own, below, WalkOrder(v));
  }

  lemma {:induction false} VisitChildrenOrdered(v: View, p: string, keys: seq<char>, keep: string -> bool, cut: string -> bool)
    requires Tree(v) && p in v && HasChildren(v, p, keys) && keys <= v[p].keys
    ensures Sorted(VisitChildren(v, p, keys, keep, cut), WalkOrder(v))
    decreases Size(v, p), |keys|
  {
    hide Open;
    if keys != [] {
      var front, c := keys[..|keys| - 1], keys[|keys| - 1];
      SizeShrinks(v, p, c);
      VisitChildrenOrdered(v, p, front, keep, cut);
      VisitOrdered(v, p + [c], keep, cut);
      VisitChildrenExact(v, p, front, keep, cut);
      VisitExact(v, p + [c], keep, cut);
      var a, b := VisitChildren(v, p, front, keep, cut), Visit(v, p + [c], keep, cut);
      forall i, j | 0 <= i < |a| && 0 <= j < |b| ensures WalkOrder(v)(a[i], b[j]) {
        assert a[i] in a && b[j] in b;
        SiblingsPart(v, p, keys, a[i], b[j]);
      }
      SortedConcat(a, b, WalkOrder(v));
    }
  }

  lemma SiblingsPart(v: View, p: string, keys: seq<char>, a: string, b: string)
    requires p in v && keys != [] && keys <= v[p].keys
    requires p < a && a[|p|] in keys[..|keys| - 1] && p + [keys[|keys| - 1]] <= b
    ensures WalkBefore(v, a, b)
  {
    var k := |p|;
    assert a[..k] == p == b[..k] && b[k] == keys[|keys| - 1];
    var i :| 0 <= i < |keys| - 1 && keys[i] == a[k];
    assert v[p].keys[i] == a[k] && v[p].keys[|keys| - 1] == b[k];
    assert Parts(v, a, b, k);
  }

  // ----- The walk, as the recursive helpers fill their results array -----

  lemma MapConcat<A, B>(f: A -> B, a: seq<A>, b: seq<A>)
    ensures Map(f, a + b) == Map(f, a) + Map(f, b)
  {
  }

  lemma ConcatAssoc<T>(a: seq<T>, b: seq<T>, c: seq<T>)
    ensures a + (b + c) == a + b + c
  {
  }

  function Own(p: string, keep: string -> bool): seq<string> { if keep(p) then [p] else [] }

  ghost function Hits<T>(v: View, p: string, keep: string -> bool, cut: string -> bool, f: string -> T): seq<T>
    requires Tree(v) && p in v
  {
    Map(f, Visit(v, p, keep, cut))
  }

  /** What the array holds after the node itself and its first `i` children. */
  ghost function HitsUpTo<T>(v: View, p: string, i: nat, keep: string -> bool, cut: string -> bool, f: string -> T): seq<T>
    requires Tree(v) && p in v && i <= |v[p].keys|
  {
    assert HasChildren(v, p, v[p].keys) && HasChildren(v, p, v[p].keys[..i]);
    Map(f, Own(p, keep)) + Map(f, VisitChildren(v, p, v[p].keys[..i], keep, cut))
  }

  lemma HitsNext<T>(v: View, p: string, i: nat, keep: string -> bool, cut: string -> bool, f: string -> T)
    requires Tree(v) && p in v && i < |v[p].keys|
    ensures p + [v[p].keys[i]] in v && Size(v, p + [v[p].keys[i]]) < Size(v, p)
    ensures HitsUpTo(v, p, i + 1, keep, cut, f)
         == HitsUpTo(v, p, i, keep, cut, f) + Hits(v, p + [v[p].keys[i]], keep, cut, f)
  {
    var keys := v[p].keys[..i + 1];
    assert HasChildren(v, p, v[p].keys) && HasChildren(v, p, keys);
    assert keys[..i] == v[p].keys[..i];
    SizeShrinks(v, p, keys[i]);
    hide Map, Visit, Own, Tree, Size, HasChildren;
    var before, next := VisitChildren(v, p, keys[..i], keep, cut), Visit(v, p + [keys[i]], keep, cut);
    MapConcat(f, before, next);
    ConcatAssoc(Map(f, Own(p, keep)), Map(f, before), Map(f, next));
  }

  lemma HitsWhole<T>(v: View, p: string, keep: string -> bool, cut: string -> bool, f: string -> T)
    requires Tree(v) && p in v
    ensures HitsUpTo(v, p, 0, keep, cut, f) == if keep(p) then [f(p)] else []
    ensures Hits(v, p, keep, cut, f)
         == if cut(p) then (if keep(p) then [f(p)] else []) else HitsUpTo(v, p, |v[p].keys|, keep, cut, f)
  {
    assert HasChildren(v, p, v[p].keys);
    assert v[p].keys[..|v[p].keys|] == v[p].keys;
    assert Map(f, Own(p, keep)) == if keep(p) then [f(p)] else [];
    MapConcat(f, Own(p, keep), if cut(p) then [] else VisitChildren(v, p, v[p].keys, keep, cut));
  }

  // ----- Prefix search -----

  function DataAt(v: View): string -> Value { w => if w in v then v[w].data else Null }

  function Never(): string -> bool { _ => false }

  /** The words `collectWords` collects: ends of words with truthy data. */
  function Listed(v: View): string -> bool { w => w in v && v[w].isEnd && v[w].data.Truthy? }

  function ByFrequency(v: View): (string, string) -> bool { (x, y) => FreqAt(v, x) >= FreqAt(v, y) }

  /** The matches in the order they are ranked in, before the limit is applied. */
  ghost function RankedMatches(v: View, prefix: string): seq<string>
    requires Tree(v)
  {
    if Lower(prefix) !in v then [] else Sort(Visit(v, Lower(prefix), Listed(v), Never()), ByFrequency(v))
  }

  ghost function SearchByPrefix(v: View, prefix: string, limit: int): seq<Value>
    requires Tree(v)
  {
    if prefix == "" then [] else Map(DataAt(v), SliceTo(RankedMatches(v, prefix), limit))
  }

  ghost predicate Stored(v: View, w: string) {
    w in Dict(v) && Dict(v)[w].Truthy?
  }

  lemma SortMembers(s: seq<string>, le: (string, string) -> bool)
    requires NoDup(s)
    ensures NoDup(Sort(s, le))
    ensures forall w :: w in Sort(s, le) <==> w in s
  {
    var r := Sort(s, le);
    SortMultiset(s, le);
    forall w ensures w in r <==> w in s {
      assert w in multiset(r) <==> w in multiset(s);
    }
    forall w ensures multiset(s)[w] <= 1 { Once(s, w); }
    forall i, j | 0 <= i < j < |r| ensures r[i] != r[j] {
      if r[i] == r[j] { Twice(r, i, j); }
    }
  }

  lemma Twice(r: seq<string>, i: nat, j: nat)
    requires i < j < |r| && r[i] == r[j]
    ensures multiset(r)[r[i]] >= 2
  {
    assert r == r[..j] + [r[j]] + r[j + 1..];
    assert multiset(r) == multiset(r[..j]) + multiset{r[j]} + multiset(r[j + 1..]);
    assert r[i] == r[..j][i];
    assert r[i] in multiset(r[..j]);
  }

  lemma {:induction false} Once(s: seq<string>, w: string)
    requires NoDup(s)
    ensures multiset(s)[w] <= 1
    decreases s
  {
    if s != [] {
      Once(s[1..], w);
      assert s == [s[0]] + s[1..];
      if s[0] == w { assert w !in s[1..]; assert w !in multiset(s[1..]); }
    }
  }

  lemma RankedMembers(v: View, prefix: string)
    requires Tree(v) && Lower(prefix) in v
    ensures var r := RankedMatches(v, prefix);
      && NoDup(r)
      && (forall w :: w in r <==> Stored(v, w) && Lower(prefix) <= w)
      && (forall i, j :: 0 <= i < j < |r| ==> FreqAt(v, r[i]) >= FreqAt(v, r[j]))
  {
    var p, r := Lower(prefix), RankedMatches(v, prefix);
    var found := Visit(v, p, Listed(v), Never());
    VisitExact(v, p, Listed(v), Never());
    SortMembers(found, ByFrequency(v));
    SortCorrect(found, ByFrequency(v));
    forall w ensures w in r <==> Stored(v, w) && p <= w {
      assert w in r <==> Reported(v, p, Listed(v), Never(), w);
      assert Open(w, |p|, Never());
    }
    forall i, j | 0 <= i < j < |r| ensures FreqAt(v, r[i]) >= FreqAt(v, r[j]) {
      assert ByFrequency(v)(r[i], r[j]);
    }
  }

  /** The ranking lists every stored word with the prefix and truthy data, no
      other word and none twice, most frequent first; a prefix that is itself
      such a word leads. */
  lemma PrefixSearchExact(v: View, prefix: string)
    requires Good(v) && prefix != ""
    ensures var r, p := RankedMatches(v, prefix), Lower(prefix);
      && NoDup(r)
      && (forall w :: w in r <==> Stored(v, w) && p <= w)
      && (forall i, j :: 0 <= i < j < |r| ==> FreqAt(v, r[i]) >= FreqAt(v, r[j]))
      && (Stored(v, p) ==> r != [] && r[0] == p)
  {
    var p, r := Lower(prefix), RankedMatches(v, prefix);
    if p !in v {
      NodesArePrefixes(v, p);
    } else {
      hide RankedMatches, Lower, HasChildren, NoDup;
      RankedMembers(v, prefix);
      if Stored(v, p) && r[0] != p {
        assert p in r && r[0] in r;
        var i :| 0 <= i < |r| && r[i] == p;
        assert FreqAt(v, r[0]) >= FreqAt(v, r[i]);
        FrequencyFalls(v, p, r[0]);
        assert false;
      }
    }
  }

  // ----- What a search answers -----

  /** `r` shows the data of the first of the ranked words `ws`, which are the set
      `words`: as many as the limit says, a negative one counted from the end. */
  ghost predicate Answers(v: View, words: set<string>, ws: seq<string>, limit: int, r: seq<Value>) {
    && NoDup(ws) && (forall w :: w in ws <==> w in words) && |ws| == |words|
    && (limit >= 0 ==> |r| == if limit <= |words| then limit else |words|)
    && (limit < 0 ==> |r| == if |words| + limit >= 0 then |words| + limit else 0)
    && (forall i :: 0 <= i < |r| ==> ws[i] in Dict(v) && r[i] == Dict(v)[ws[i]])
  }

  /** With room for all, the data of every word is in the answer. */
  lemma AnswersAll(v: View, words: set<string>, ws: seq<string>, limit: int, r: seq<Value>)
    requires Answers(v, words, ws, limit, r) && limit >= |words|
    ensures forall w :: w in words ==> w in Dict(v) && Dict(v)[w] in r
  {
    forall w | w in words ensures w in Dict(v) && Dict(v)[w] in r {
      assert w in ws;
      var i :| 0 <= i < |ws| && ws[i] == w;
      assert r[i] == Dict(v)[w];
    }
  }

  lemma CutAnswers(v: View, words: set<string>, ws: seq<string>, limit: int)
    requires NoDup(ws) && (forall w :: w in ws <==> w in words) && forall w :: w in words ==> w in Dict(v)
    ensures Answers(v, words, ws, limit, Map(DataAt(v), SliceTo(ws, limit)))
  {
    NoDupCount(ws, words);
    var cut := SliceTo(ws, limit);
    forall i | 0 <= i < |cut| ensures ws[i] in Dict(v) && DataAt(v)(cut[i]) == Dict(v)[ws[i]] {
      assert cut[i] == ws[i] && ws[i] in ws;
    }
  }

  /** The stored words with truthy data and the prefix `p`. */
  ghost function Matching(v: View, p: string): set<string> {
    set w | w in Dict(v) && Dict(v)[w].Truthy? && p <= w
  }

  /** More frequent words first, equally frequent ones in the order of the walk. */
  ghost predicate ByRank(v: View, ws: seq<string>) {
    forall i, j :: 0 <= i < j < |ws| ==>
      FreqAt(v, ws[i]) > FreqAt(v, ws[j])
      || (FreqAt(v, ws[i]) == FreqAt(v, ws[j]) && WalkBefore(v, ws[i], ws[j]))
  }

  ghost predicate IsPrefixAnswer(v: View, prefix: string, limit: int, r: seq<Value>) {
    if prefix == "" then r == []
    else exists ws :: ByRank(v, ws) && Answers(v, Matching(v, Lower(prefix)), ws, limit, r)
  }

  lemma RankedByRank(v: View, prefix: string)
    requires Tree(v) && Lower(prefix) in v
    ensures ByRank(v, RankedMatches(v, prefix))
  {
    var found := Visit(v, Lower(prefix), Listed(v), Never());
    VisitOrdered(v, Lower(prefix), Listed(v), Never());
    SortCorrect(found, ByFrequency(v));
    SortStable(found, ByFrequency(v), WalkOrder(v));
    hide Sort, Visit, WalkBefore;
    var r := RankedMatches(v, prefix);
    forall i, j | 0 <= i < j < |r|
      ensures FreqAt(v, r[i]) > FreqAt(v, r[j]) || (FreqAt(v, r[i]) == FreqAt(v, r[j]) && WalkBefore(v, r[i], r[j]))
    {
      assert ByFrequency(v)(r[i], r[j]);
      if FreqAt(v, r[i]) == FreqAt(v, r[j]) {
        assert ByFrequency(v)(r[j], r[i]);
        assert WalkOrder(v)(r[i], r[j]);
      }
    }
  }

  /** `searchByPrefix` answers the data of the first matching words by rank, as many
      as the limit admits. */
  lemma PrefixAnswer(v: View, prefix: string, limit: int)
    requires Good(v)
    ensures IsPrefixAnswer(v, prefix, limit, SearchByPrefix(v, prefix, limit))
  {
    if prefix != "" {
      PrefixSearchExact(v, prefix);
      var ws := RankedMatches(v, prefix);
      if Lower(prefix) in v { RankedByRank(v, prefix); }
      hide RankedMatches;
      assert forall w :: w in ws <==> w in Matching(v, Lower(prefix));
      CutAnswers(v, Matching(v, Lower(prefix)), ws, limit);
    }
  }

  lemma StoredPrefixComesFirst(v: View, prefix: string, limit: int)
    requires Good(v) && prefix != "" && limit >= 1 && Stored(v, Lower(prefix))
    ensures |SearchByPrefix(v, prefix, limit)| >= 1
    ensures SearchByPrefix(v, prefix, limit)[0] == Dict(v)[Lower(prefix)]
  {
    PrefixSearchExact(v, prefix);
  }

  // ----- Fuzzy search -----

  function Abs(x: int): nat { if x < 0 then -x else x }

  function Distance(w: string, query: string): nat { EditDistance.Lev(w, query) }

  function Close(v: View, query: string, maxDistance: int): string -> bool {
    w => Listed(v)(w) && Distance(w, query) <= maxDistance
  }

  /** The prune of the code: it looks at the length difference both ways. */
  function TooFarApart(query: string, maxDistance: int): string -> bool {
    u => Abs(|u| - |query|) > maxDistance
  }

  /** The prune its comment describes: only longer words are out of reach. */
  function TooLong(query: string, maxDistance: int): string -> bool {
    u => |u| - |query| > maxDistance
  }

  function ByDistance(v: View, query: string): (string, string) -> bool {
    (x, y) =>
      Distance(x, query) < Distance(y, query)
      || (Distance(x, query) == Distance(y, query) && FreqAt(v, x) >= FreqAt(v, y))
  }

  ghost function RankedFuzzy(v: View, query: string, maxDistance: int, cut: string -> bool): seq<string>
    requires Tree(v)
  {
    Sort(Visit(v, "", Close(v, query, maxDistance), cut), ByDistance(v, query))
  }

  ghost function FuzzySearch(v: View, query: string, maxDistance: int, limit: int): seq<Value>
    requires Tree(v)
  {
    if query == "" then []
    else
      var q := Lower(query);
      Map(DataAt(v), SliceTo(RankedFuzzy(v, q, maxDistance, TooFarApart(q, maxDistance)), limit))
  }

  ghost predicate Near(v: View, query: string, maxDistance: int, w: string) {
    Stored(v, w) && Distance(w, query) <= maxDistance
  }

  /** With any prune, only stored words within the distance are returned, none
      twice, nearest first and more frequent first among equally near ones. */
  lemma FuzzySound(v: View, query: string, maxDistance: int, cut: string -> bool)
    requires Tree(v)
    ensures var r := RankedFuzzy(v, query, maxDistance, cut);
      && NoDup(r)
      && (forall w :: w in r <==> Near(v, query, maxDistance, w) && Open(w, 0, cut))
      && (forall i, j :: 0 <= i < j < |r| ==> ByDistance(v, query)(r[i], r[j]))
  {
    var keep := Close(v, query, maxDistance);
    var found := Visit(v, "", keep, cut);
    VisitExact(v, "", keep, cut);
    SortMembers(found, ByDistance(v, query));
    SortCorrect(found, ByDistance(v, query));
    forall w ensures w in Sort(found, ByDistance(v, query)) <==> Near(v, query, maxDistance, w) && Open(w, 0, cut) {
      assert w in found <==> Reported(v, "", keep, cut, w);
      assert |""| == 0 && "" <= w;
      assert Listed(v)(w) <==> Stored(v, w);
      assert keep(w) <==> Listed(v)(w) && Distance(w, query) <= maxDistance;
    }
  }

  /** As written, the search finds every near word when the query is no longer
      than `maxDistance`, and nothing at all when it is longer. */
  lemma FuzzyAsWritten(v: View, query: string, maxDistance: int)
    requires Tree(v)
    ensures var r := RankedFuzzy(v, query, maxDistance, TooFarApart(query, maxDistance));
      && (forall w :: w in r <==> |query| <= maxDistance && Near(v, query, maxDistance, w))
      && (|query| > maxDistance ==> r == [])
  {
    var cut := TooFarApart(query, maxDistance);
    FuzzySound(v, query, maxDistance, cut);
    forall w | Near(v, query, maxDistance, w) ensures Open(w, 0, cut) <==> |query| <= maxDistance {
      EditDistance.AtLeastLengthDifference(w, query);
      assert w != "";
      if |query| > maxDistance { assert cut(w[..0]); }
    }
  }

  /** The stored words with truthy data within the distance. */
  ghost function NearWords(v: View, query: string, maxDistance: int): set<string> {
    set w | w in Dict(v) && Dict(v)[w].Truthy? && EditDistance.Lev(w, query) <= maxDistance
  }

  /** Nearer words first, then more frequent ones, then in the order of the walk. */
  ghost predicate ByNearness(v: View, query: string, ws: seq<string>) {
    forall i, j :: 0 <= i < j < |ws| ==>
      var di, dj := EditDistance.Lev(ws[i], query), EditDistance.Lev(ws[j], query);
      di < dj || (di == dj && (FreqAt(v, ws[i]) > FreqAt(v, ws[j])
                               || (FreqAt(v, ws[i]) == FreqAt(v, ws[j]) && WalkBefore(v, ws[i], ws[j]))))
  }

  ghost predicate IsFuzzyAnswer(v: View, query: string, maxDistance: int, limit: int, r: seq<Value>) {
    if query == "" || |query| > maxDistance then r == []
    else
      exists ws :: ByNearness(v, Lower(query), ws)
        && Answers(v, NearWords(v, Lower(query), maxDistance), ws, limit, r)
  }

  lemma RankedByNearness(v: View, query: string, maxDistance: int, cut: string -> bool)
    requires Tree(v)
    ensures ByNearness(v, query, RankedFuzzy(v, query, maxDistance, cut))
  {
    var keep := Close(v, query, maxDistance);
    var found := Visit(v, "", keep, cut);
    VisitOrdered(v, "", keep, cut);
    SortCorrect(found, ByDistance(v, query));
    SortStable(found, ByDistance(v, query), WalkOrder(v));
    var r := RankedFuzzy(v, query, maxDistance, cut);
    hide Sort, Visit, WalkBefore, RankedFuzzy, EditDistance.Lev, FreqAt;
    forall i, j | 0 <= i < j < |r| ensures
      var di, dj := EditDistance.Lev(r[i], query), EditDistance.Lev(r[j], query);
      di < dj || (di == dj && (FreqAt(v, r[i]) > FreqAt(v, r[j])
                               || (FreqAt(v, r[i]) == FreqAt(v, r[j]) && WalkBefore(v, r[i], r[j]))))
    {
      assert ByDistance(v, query)(r[i], r[j]);
      if ByDistance(v, query)(r[j], r[i]) { assert WalkOrder(v)(r[i], r[j]); }
    }
  }

  /** `fuzzySearch` answers nothing for a query longer than the distance, and else
      the data of the first near words by nearness, as many as the limit admits. */
  lemma FuzzyAnswer(v: View, query: string, maxDistance: int, limit: int)
    requires Good(v)
    ensures IsFuzzyAnswer(v, query, maxDistance, limit, FuzzySearch(v, query, maxDistance, limit))
  {
    if query != "" {
      var q := Lower(query);
      var ws := RankedFuzzy(v, q, maxDistance, TooFarApart(q, maxDistance));
      FuzzySound(v, q, maxDistance, TooFarApart(q, maxDistance));
      FuzzyAsWritten(v, q, maxDistance);
      RankedByNearness(v, q, maxDistance, TooFarApart(q, maxDistance));
      hide RankedFuzzy, EditDistance.Lev, ByNearness, Lower;
      if |q| <= maxDistance {
        assert forall w :: w in ws <==> w in NearWords(v, q, maxDistance);
        CutAnswers(v, NearWords(v, q, maxDistance), ws, limit);
      }
    }
  }

  /** So it returns every near word exactly when the query is short enough or
      there was nothing to find. */
  lemma FuzzyCompleteIff(v: View, query: string, maxDistance: int)
    requires Tree(v)
    ensures (forall w :: Near(v, query, maxDistance, w) ==>
               w in RankedFuzzy(v, query, maxDistance, TooFarApart(query, maxDistance)))
       <==> |query| <= maxDistance || forall w :: !Near(v, query, maxDistance, w)
  {
    FuzzyAsWritten(v, query, maxDistance);
  }

  /** Pruning only words that are too long loses nothing, for every query. */
  lemma FuzzyOneSidedComplete(v: View, query: string, maxDistance: int)
    requires Tree(v)
    ensures var r := RankedFuzzy(v, query, maxDistance, TooLong(query, maxDistance));
      forall w :: w in r <==> Near(v, query, maxDistance, w)
  {
    var cut := TooLong(query, maxDistance);
    FuzzySound(v, query, maxDistance, cut);
    forall w | Near(v, query, maxDistance, w) ensures Open(w, 0, cut) {
      EditDistance.AtLeastLengthDifference(w, query);
    }
  }

  /** With the default distance of 2 a stored word of three letters is not
      found by its own spelling. */
  lemma FuzzyMissesExactMatch(data: Value)
    requires data.Truthy?
    ensures var v := Do(EMPTY, Insert("abc", data));
      Tree(v) && Near(v, "abc", 2, "abc") && FuzzySearch(v, "abc", 2, 10) == []
  {
    EmptyGood();
    DoRefinesMap(EMPTY, Insert("abc", data));
    assert Lower("abc") == "abc";
    var v := Do(EMPTY, Insert("abc", data));
    EditDistance.SelfZero("abc");
    FuzzyAsWritten(v, "abc", 2);
  }

  // ----- Statistics -----

  function Always(): string -> bool { _ => true }

  function WordEnd(v: View): string -> bool { w => w in v && v[w].isEnd }

  lemma {:induction false} NoDupCount(s: seq<string>, m: set<string>)
    requires NoDup(s) && forall x :: x in s <==> x in m
    ensures |s| == |m|
    decreases s
  {
    if s == [] {
      assert m == {};
    } else {
      var x := s[0];
      assert x in s;
      forall y ensures y in s[1..] <==> y in m - {x} {
        assert y in s <==> y == x || y in s[1..];
      }
      NoDupCount(s[1..], m - {x});
    }
  }

  ghost function NonEmptyPrefixes(m: map<string, Value>): set<string> {
    set w, k | w in m && 1 <= k <= |w| :: w[..k]
  }

  /** `getStats` counts one node for the root and each distinct non-empty prefix
      of a stored word, and one word for each stored word. */
  lemma StatsCount(v: View)
    requires Good(v)
    ensures |Visit(v, "", Always(), Never())| == 1 + |NonEmptyPrefixes(Dict(v))|
    ensures |Visit(v, "", WordEnd(v), Never())| == |Dict(v)|
  {
    VisitExact(v, "", Always(), Never());
    VisitExact(v, "", WordEnd(v), Never());
    var all, ends := Visit(v, "", Always(), Never()), Visit(v, "", WordEnd(v), Never());
    var prefixes := NonEmptyPrefixes(Dict(v));
    forall q ensures q in all <==> q in {""} + prefixes {
      NodesArePrefixes(v, q);
      assert Open(q, 0, Never());
      assert q in all <==> Reported(v, "", Always(), Never(), q);
      if w :| w in Dict(v) && q <= w && q != "" {
        assert w[..|q|] == q;
      }
    }
    NoDupCount(all, {""} + prefixes);
    assert "" !in prefixes;
    forall q ensures q in ends <==> q in Dict(v).Keys {
      assert Open(q, 0, Never());
      assert q in ends <==> Reported(v, "", WordEnd(v), Never(), q);
    }
    NoDupCount(ends, Dict(v).Keys);
    assert |Dict(v).Keys| == |Dict(v)|;
  }
}
