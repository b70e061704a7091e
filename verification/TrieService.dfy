/** The mutable node graph of src/common/search/trie.service.ts, proved against
    the views of TrieView.dfy.  A ghost map from paths to nodes says which node
    is reached along which path. */
module TrieService {
  import opened Sequences
  import opened TrieView
  import opened TrieInvariants
  import opened TrieSearch
  import opened StableSort
  import EditDistance

  class TrieNode {
    var children: map<char, TrieNode>
    var order: seq<char>  // the keys of `children` in insertion order
    var isEndOfWord: bool
    var data: Value
    var frequency: nat
    ghost const path: string  // the way here from the root

    constructor (ghost path: string)
      ensures children == map[] && Content() == NEW_CELL && this.path == path
    {
      children, order, isEndOfWord, data, frequency := map[], [], false, Null, 0;
      this.path := path;
    }

    function Content(): Cell
      reads this
    {
      Cell(isEndOfWord, data, frequency, order)
    }
  }

  /** The array the recursive helpers push into. */
  class Results<T> {
    var items: seq<T>

    constructor ()
      ensures items == []
    {
      items := [];
    }

    method Push(x: T)
      modifies this
      ensures items == old(items) + [x]
    {
      items := items + [x];
    }
  }

  datatype PrefixHit = PrefixHit(data: Value, frequency: nat)
  datatype FuzzyHit = FuzzyHit(data: Value, distance: nat, frequency: nat)
  datatype Stats = Stats(totalNodes: nat, totalWords: nat)

  // ----- What `collectWords` pushes -----

  function PrefixHitOf(v: View): string -> PrefixHit {
    w => if w in v then PrefixHit(v[w].data, v[w].freq) else PrefixHit(Null, 0)
  }

  /** The records pushed for the subtree of `p`. */
  ghost function PrefixHits(v: View, p: string): seq<PrefixHit>
    requires Tree(v) && p in v
  {
    Hits(v, p, Listed(v), Never(), PrefixHitOf(v))
  }

  /** The array at the `i`-th round of the loop over the children of `p`. */
  ghost function PrefixHitsUpTo(base: seq<PrefixHit>, v: View, p: string, i: nat): seq<PrefixHit>
    requires Tree(v) && p in v && i <= |v[p].keys|
  {
    base + HitsUpTo(v, p, i, Listed(v), Never(), PrefixHitOf(v))
  }

  lemma PrefixHitsEnds(base: seq<PrefixHit>, v: View, p: string)
    requires Tree(v) && p in v
    ensures PrefixHitsUpTo(base, v, p, 0)
         == if v[p].isEnd && v[p].data.Truthy? then base + [PrefixHit(v[p].data, v[p].freq)] else base
    ensures PrefixHitsUpTo(base, v, p, |v[p].keys|) == base + PrefixHits(v, p)
  {
    HitsWhole(v, p, Listed(v), Never(), PrefixHitOf(v));
  }

  lemma PrefixHitsNext(base: seq<PrefixHit>, v: View, p: string, i: nat)
    requires Tree(v) && p in v && i < |v[p].keys|
    ensures var q := p + [v[p].keys[i]];
      q in v && Size(v, q) < Size(v, p)
      && PrefixHitsUpTo(base, v, p, i + 1) == PrefixHitsUpTo(base, v, p, i) + PrefixHits(v, q)
  {
    HitsNext(v, p, i, Listed(v), Never(), PrefixHitOf(v));
    ConcatAssoc(base, HitsUpTo(v, p, i, Listed(v), Never(), PrefixHitOf(v)), PrefixHits(v, p + [v[p].keys[i]]));
  }

  function MoreFrequent(): (PrefixHit, PrefixHit) -> bool {
    (a: PrefixHit, b: PrefixHit) => a.frequency >= b.frequency
  }

  /** `results.sort(...).slice(0, limit).map(item => item.data)` */
  function TopByFrequency(hits: seq<PrefixHit>, limit: int): seq<Value> {
    Map((h: PrefixHit) => h.data, SliceTo(Sort(hits, MoreFrequent()), limit))
  }

  /** Sorting the records is ranking the words they came from. */
  lemma RankHits(v: View, prefix: string, limit: int)
    requires Tree(v) && Lower(prefix) in v && prefix != ""
    ensures TopByFrequency(PrefixHits(v, Lower(prefix)), limit) == TrieSearch.SearchByPrefix(v, prefix, limit)
  {
    SortMap(PrefixHitOf(v), Visit(v, Lower(prefix), Listed(v), Never()), ByFrequency(v), MoreFrequent());
  }

  // ----- What `fuzzySearchHelper` pushes -----

  function FuzzyHitOf(v: View, query: string): string -> FuzzyHit {
    w => if w in v then FuzzyHit(v[w].data, Distance(w, query), v[w].freq) else FuzzyHit(Null, Distance(w, query), 0)
  }

  ghost function FuzzyHits(v: View, p: string, query: string, maxDistance: int): seq<FuzzyHit>
    requires Tree(v) && p in v
  {
    Hits(v, p, Close(v, query, maxDistance), TooFarApart(query, maxDistance), FuzzyHitOf(v, query))
  }

  ghost function FuzzyHitsUpTo(base: seq<FuzzyHit>, v: View, p: string, i: nat, query: string, maxDistance: int): seq<FuzzyHit>
    requires Tree(v) && p in v && i <= |v[p].keys|
  {
    base + HitsUpTo(v, p, i, Close(v, query, maxDistance), TooFarApart(query, maxDistance), FuzzyHitOf(v, query))
  }

  lemma FuzzyHitsEnds(base: seq<FuzzyHit>, v: View, p: string, query: string, maxDistance: int)
    requires Tree(v) && p in v
    ensures FuzzyHitsUpTo(base, v, p, 0, query, maxDistance)
         == if v[p].isEnd && v[p].data.Truthy? && Distance(p, query) <= maxDistance
            then base + [FuzzyHit(v[p].data, Distance(p, query), v[p].freq)] else base
    ensures base + FuzzyHits(v, p, query, maxDistance)
         == FuzzyHitsUpTo(base, v, p, if Abs(|p| - |query|) > maxDistance then 0 else |v[p].keys|, query, maxDistance)
  {
    var keep, cut := Close(v, query, maxDistance), TooFarApart(query, maxDistance);
    HitsWhole(v, p, keep, cut, FuzzyHitOf(v, query));
    assert Listed(v)(p) <==> v[p].isEnd && v[p].data.Truthy?;
    assert keep(p) <==> Listed(v)(p) && Distance(p, query) <= maxDistance;
    assert cut(p) <==> Abs(|p| - |query|) > maxDistance;
  }

  lemma FuzzyHitsNext(base: seq<FuzzyHit>, v: View, p: string, i: nat, query: string, maxDistance: int)
    requires Tree(v) && p in v && i < |v[p].keys|
    ensures var q := p + [v[p].keys[i]];
      q in v && Size(v, q) < Size(v, p)
      && FuzzyHitsUpTo(base, v, p, i + 1, query, maxDistance)
      == FuzzyHitsUpTo(base, v, p, i, query, maxDistance) + FuzzyHits(v, q, query, maxDistance)
  {
    var keep, cut, f := Close(v, query, maxDistance), TooFarApart(query, maxDistance), FuzzyHitOf(v, query);
    HitsNext(v, p, i, keep, cut, f);
    ConcatAssoc(base, HitsUpTo(v, p, i, keep, cut, f), FuzzyHits(v, p + [v[p].keys[i]], query, maxDistance));
  }

  function Nearer(): (FuzzyHit, FuzzyHit) -> bool {
    (a: FuzzyHit, b: FuzzyHit) => a.distance < b.distance || (a.distance == b.distance && a.frequency >= b.frequency)
  }

  function TopByDistance(hits: seq<FuzzyHit>, limit: int): seq<Value> {
    Map((h: FuzzyHit) => h.data, SliceTo(Sort(hits, Nearer()), limit))
  }

  lemma RankFuzzyHits(v: View, query: string, maxDistance: int, limit: int)
    requires Tree(v) && query != ""
    ensures TopByDistance(FuzzyHits(v, "", Lower(query), maxDistance), limit)
         == TrieSearch.FuzzySearch(v, query, maxDistance, limit)
  {
    var q := Lower(query);
    var near := Visit(v, "", Close(v, q, maxDistance), TooFarApart(q, maxDistance));
    NearerAsWords(v, q);
    hide Lower, Sort, Map, SliceTo, Visit, Nearer, ByDistance, FuzzyHitOf;
    SortMap(FuzzyHitOf(v, q), near, ByDistance(v, q), Nearer());
    SliceMap(FuzzyHitOf(v, q), (h: FuzzyHit) => h.data, DataAt(v), Sort(near, ByDistance(v, q)), limit);
  }

  lemma NearerAsWords(v: View, q: string)
    ensures forall x, y :: ByDistance(v, q)(x, y) == Nearer()(FuzzyHitOf(v, q)(x), FuzzyHitOf(v, q)(y))
    ensures forall x :: FuzzyHitOf(v, q)(x).data == DataAt(v)(x)
  {
    hide Distance;
  }

  // ----- What `countNodes` counts -----

  ghost function NodeCount(v: View, p: string): nat
    requires Tree(v) && p in v
  {
    |Visit(v, p, Always(), Never())|
  }

  ghost function WordCount(v: View, p: string): nat
    requires Tree(v) && p in v
  {
    |Visit(v, p, WordEnd(v), Never())|
  }

  /** The two counts after the node itself and its first `i` children. */
  ghost function CountsUpTo(v: View, p: string, i: nat): (nat, nat)
    requires Tree(v) && p in v && i <= |v[p].keys|
  {
    (|HitsUpTo(v, p, i, Always(), Never(), DataAt(v))|, |HitsUpTo(v, p, i, WordEnd(v), Never(), DataAt(v))|)
  }

  lemma CountsEnds(v: View, p: string)
    requires Tree(v) && p in v
    ensures CountsUpTo(v, p, 0) == (1, if v[p].isEnd then 1 else 0)
    ensures CountsUpTo(v, p, |v[p].keys|) == (NodeCount(v, p), WordCount(v, p))
  {
    HitsWhole(v, p, Always(), Never(), DataAt(v));
    HitsWhole(v, p, WordEnd(v), Never(), DataAt(v));
  }

  lemma CountsNext(v: View, p: string, i: nat)
    requires Tree(v) && p in v && i < |v[p].keys|
    ensures var q := p + [v[p].keys[i]];
      q in v && Size(v, q) < Size(v, p)
      && CountsUpTo(v, p, i + 1).0 == CountsUpTo(v, p, i).0 + NodeCount(v, q)
      && CountsUpTo(v, p, i + 1).1 == CountsUpTo(v, p, i).1 + WordCount(v, q)
  {
    HitsNext(v, p, i, Always(), Never(), DataAt(v));
    HitsNext(v, p, i, WordEnd(v), Never(), DataAt(v));
  }

  class TrieService {
    var root: TrieNode
    ghost var nodes: map<string, TrieNode>
    ghost var view: View
    ghost var repr: set<TrieNode>

    /** The node of `p` holds the cell of `p`, and its children are the nodes
        one character further. */
    ghost predicate LinkedAt(p: string)
      reads this, repr
      requires p in nodes && nodes[p] in repr && nodes.Keys == view.Keys
    {
      && nodes[p].path == p && nodes[p].Content() == view[p]
      && (forall c :: c in nodes[p].children <==> c in view[p].keys)
      && (forall c :: c in nodes[p].children ==>
            p + [c] in nodes && nodes[p].children[c] == nodes[p + [c]])
    }

    /** The nodes form the tree that `view` describes. */
    ghost predicate Linked()
      reads this, repr
    {
      && "" in nodes && nodes[""] == root && nodes.Keys == view.Keys
      && (forall p :: p in nodes ==> nodes[p] in repr)
      && (forall p {:trigger LinkedAt(p)} :: p in nodes ==> LinkedAt(p))
    }

    ghost predicate Valid()
      reads this, repr
    {
      Linked() && Good(view) && Lowered(view)
    }

    constructor ()
      ensures Valid() && view == EMPTY && fresh(repr)
    {
      root := new TrieNode("");
      new;
      nodes, view, repr := map["" := root], EMPTY, {root};
      EmptyGood();
    }

    // ----- insert -----

    /** `node.children.set(c, new TrieNode())` */
    method AddChild(node: TrieNode, c: char, ghost p: string)
      requires Linked() && p in nodes && nodes[p] == node && p + [c] !in nodes
      modifies this`nodes, this`view, this`repr, node
      ensures Linked() && p + [c] in nodes && nodes == old(nodes)[p + [c] := nodes[p + [c]]]
      ensures fresh(repr - old(repr)) && view == Grow(old(view), p, c)
    {
      assert LinkedAt(p);
      var child := new TrieNode(p + [c]);
      node.children := node.children[c := child];
      node.order := node.order + [c];
      nodes, view, repr := nodes[p + [c] := child], Grow(view, p, c), repr + {child};
      forall q | q in nodes ensures LinkedAt(q) {
        if q != p + [c] { assert old(LinkedAt(q)); }
      }
    }

    /** `node.frequency++` */
    method Count(node: TrieNode, ghost p: string)
      requires Linked() && p in nodes && nodes[p] == node
      modifies this`view, node
      ensures Linked() && view == Counted(old(view), p)
    {
      assert LinkedAt(p);
      node.frequency := node.frequency + 1;
      view := Counted(view, p);
      forall q | q in nodes ensures LinkedAt(q) { assert old(LinkedAt(q)); }
    }

    /** `node.isEndOfWord = isEnd; node.data = data` */
    method SetWord(node: TrieNode, isEnd: bool, data: Value, ghost p: string)
      requires Linked() && p in nodes && nodes[p] == node
      modifies this`view, node
      ensures Linked() && view == old(view)[p := old(view)[p].(isEnd := isEnd, data := data)]
    {
      assert LinkedAt(p);
      node.isEndOfWord, node.data := isEnd, data;
      view := view[p := view[p].(isEnd := isEnd, data := data)];
      forall q | q in nodes ensures LinkedAt(q) { assert old(LinkedAt(q)); }
    }

    /** One round of the insertion loop, at the node of `p`. */
    method Enter(node: TrieNode, c: char, ghost p: string) returns (child: TrieNode)
      requires Linked() && Tree(view) && p in nodes && nodes[p] == node
      modifies this`nodes, this`view, this`repr, repr
      ensures Linked() && p + [c] in nodes && nodes[p + [c]] == child
      ensures fresh(repr - old(repr))
      ensures view == Descend(old(view), p, c)
    {
      assert LinkedAt(p);
      if p + [c] in nodes { ChildIsKey(view, p, c); }
      if c !in node.children {
        AddChild(node, c, p);
      }
      assert LinkedAt(p);
      child := node.children[c];
      Count(child, p + [c]);
    }

    method Insert(word: string, data: Value)
      requires Valid()
      modifies this`nodes, this`view, this`repr, repr
      ensures Valid() && fresh(repr - old(repr))
      ensures view == Do(old(view), Op.Insert(word, data))
      ensures word != "" ==> exists k :: k in Dict(view) && SameUpToCase(word, k) && Dict(view)[k] == data
    {
      if word == "" {
        return;
      }
      var normalizedWord := Lower(word);
      var node := root;
      for i := 0 to |normalizedWord|
        invariant Linked() && fresh(repr - old(repr))
        invariant normalizedWord[..i] in nodes && node == nodes[normalizedWord[..i]]
        invariant view == DescendTo(old(view), normalizedWord, i)
      {
        DescendToMidway(old(view), normalizedWord, i);
        assert normalizedWord[..i] + [normalizedWord[i]] == normalizedWord[..i + 1];
        node := Enter(node, normalizedWord[i], normalizedWord[..i]);
      }
      assert normalizedWord[..|normalizedWord|] == normalizedWord;
      SetWord(node, true, data, normalizedWord);
      InsertRefinesMap(old(view), normalizedWord, data);
      DoLowered(old(view), Op.Insert(word, data));
      FoundIsVariant(word);
    }

    // ----- lookup -----

    method FindNode(word: string) returns (node: TrieNode?)
      requires Valid()
      ensures if Lower(word) in nodes then node == nodes[Lower(word)] else node == null
    {
      var normalizedWord := Lower(word);
      var current := root;
      for i := 0 to |normalizedWord|
        invariant normalizedWord[..i] in nodes && current == nodes[normalizedWord[..i]]
      {
        var c := normalizedWord[i];
        assert LinkedAt(normalizedWord[..i]);
        assert normalizedWord[..i] + [c] == normalizedWord[..i + 1];
        if c !in current.children {
          if normalizedWord in view {
            WordBelow(view, normalizedWord, i + 1);
            ChildIsKey(view, normalizedWord[..i], c);
          }
          return null;
        }
        current := current.children[c];
      }
      assert normalizedWord[..|normalizedWord|] == normalizedWord;
      node := current;
    }

    lemma FoundIsVariant(word: string)
      requires Valid()
      ensures forall k :: k in Dict(view) ==> (SameUpToCase(word, k) <==> k == Lower(word))
      ensures Lower(word) in Dict(view) <==> exists k :: k in Dict(view) && SameUpToCase(word, k)
    {
      forall k | k in Dict(view) ensures SameUpToCase(word, k) <==> k == Lower(word) {
        VariantsOf(view, word, k);
      }
    }

    method Search(word: string) returns (r: Value)
      requires Valid()
      ensures forall k :: k in Dict(view) && SameUpToCase(word, k) ==> r == Dict(view)[k]
      ensures (forall k :: k in Dict(view) ==> !SameUpToCase(word, k)) ==> r == Null
    {
      FoundIsVariant(word);
      var node := FindNode(word);
      if node != null { assert LinkedAt(Lower(word)); }
      r := if node != null && node.isEndOfWord then node.data else Null;
    }

    method Contains(word: string) returns (r: bool)
      requires Valid()
      ensures r <==> exists k :: k in Dict(view) && SameUpToCase(word, k)
    {
      FoundIsVariant(word);
      var node := FindNode(word);
      if node != null { assert LinkedAt(Lower(word)); }
      r := node != null && node.isEndOfWord;
    }

    // ----- delete and clear -----

    /** After the child at path `gone` is taken away, its parent included. */
    twostate lemma StillLinked(gone: string)
      requires gone != "" && old(Linked()) && Parent(gone) in old(nodes) && NoDup(old(view)[Parent(gone)].keys)
      requires root == old(root) && repr == old(repr) && nodes == old(nodes) - {gone}
      requires view == Drop(old(view), Parent(gone), Tip(gone))
      requires forall q :: q in nodes && q != Parent(gone) ==> unchanged(nodes[q])
      requires Parent(gone) in nodes && nodes[Parent(gone)].Content() == view[Parent(gone)]
      requires nodes[Parent(gone)].children == old(nodes[Parent(gone)].children) - {Tip(gone)}
      ensures Linked()
    {
      Decompose(gone);
      WithoutMembers(old(view)[Parent(gone)].keys, Tip(gone));
      forall q | q in nodes ensures LinkedAt(q) {
        assert old(LinkedAt(q));
        forall d | d in nodes[q].children ensures q + [d] in nodes && nodes[q].children[d] == nodes[q + [d]] {
          ChildPath(q, d);
        }
      }
    }

    /** `node.children.delete(c)` */
    method RemoveChild(node: TrieNode, c: char, ghost p: string)
      requires Linked() && p in nodes && nodes[p] == node && NoDup(view[p].keys)
      modifies this`nodes, this`view, node
      ensures Linked() && p in nodes && nodes[p] == node
      ensures nodes == old(nodes) - {p + [c]} && view == Drop(old(view), p, c)
    {
      assert LinkedAt(p);
      ChildPath(p, c);
      node.children := node.children - {c};
      node.order := Without(node.order, c);
      nodes, view := nodes - {p + [c]}, Drop(view, p, c);
      forall q | q in nodes && q != p ensures unchanged(nodes[q]) { assert old(LinkedAt(q)); }
      StillLinked(p + [c]);
    }

    /** Marks the word's end off, prunes on the way back, and reports whether
        the parent should drop this node. */
    method DeleteHelper(node: TrieNode, word: string, index: nat) returns (remove: bool)
      requires Valid() && index <= |word| && word[..index] in nodes && node == nodes[word[..index]]
      modifies this`nodes, this`view, repr
      ensures Linked()
      ensures forall q :: q in nodes ==> q in old(nodes) && nodes[q] == old(nodes[q])
      ensures word[..index] in nodes && node == nodes[word[..index]]
      ensures repr == old(repr) && (view, remove) == DeleteFrom(old(view), word, index)
      decreases |word| - index
    {
      ghost var p := word[..index];
      assert LinkedAt(p);
      if index == |word| {
        if !node.isEndOfWord {
          return false;
        }
        SetWord(node, false, Null, p);
        assert LinkedAt(p);
        return node.order == [];
      }
      var c := word[index];
      assert p + [c] == word[..index + 1];
      if c !in node.children {
        if p + [c] in nodes { ChildIsKey(view, p, c); }
        return false;
      }
      var childNode := node.children[c];
      var shouldDeleteChild := DeleteHelper(childNode, word, index + 1);
      DeleteFromPrunes(old(view), word, index + 1);
      DeleteKeepsPrefix(old(view), word, index + 1, index);
      if shouldDeleteChild {
        assert HasChildren(view, p, view[p].keys);
        RemoveChild(node, c, p);
        assert LinkedAt(p);
        return node.order == [] && !node.isEndOfWord;
      }
      return false;
    }

    method Delete(word: string) returns (r: bool)
      requires Valid()
      modifies this`nodes, this`view, this`repr, repr
      ensures Valid() && repr == old(repr)
      ensures view == Do(old(view), Op.Delete(word))
      ensures r <==> word != "" && old(Dict(view)).Keys == {Lower(word)}
      ensures word != "" ==> forall k :: k in Dict(view) ==> !SameUpToCase(word, k)
    {
      if word == "" {
        return false;
      }
      var normalizedWord := Lower(word);
      assert normalizedWord[..0] == "";
      DeleteRefinesMap(view, normalizedWord);
      DoLowered(view, Op.Delete(word));
      DoRefinesMap(view, Op.Delete(word));
      r := DeleteHelper(root, normalizedWord, 0);
      FoundIsVariant(word);
    }

    method Clear()
      modifies this
      ensures Valid() && view == EMPTY && fresh(repr)
    {
      root := new TrieNode("");
      nodes, view, repr := map["" := root], EMPTY, {root};
      EmptyGood();
      assert LinkedAt("");
    }

    // ----- searches -----

    method CollectWords(node: TrieNode, results: Results<PrefixHit>, ghost p: string)
      requires Valid() && p in nodes && nodes[p] == node
      modifies results
      ensures results.items == old(results.items) + PrefixHits(view, p)
      decreases Size(view, p)
    {
      hide PrefixHits, PrefixHitsUpTo, HasChildren, HasParent, NoDeadBranch, Ranked;
      ghost var base := results.items;
      assert LinkedAt(p);
      PrefixHitsEnds(base, view, p);
      if node.isEndOfWord && node.data.Truthy? {
        results.Push(PrefixHit(node.data, node.frequency));
      }
      for i := 0 to |node.order|
        invariant results.items == PrefixHitsUpTo(base, view, p, i)
      {
        PrefixHitsNext(base, view, p, i);
        CollectWords(node.children[node.order[i]], results, p + [node.order[i]]);
      }
    }

    method SearchByPrefix(prefix: string, limit: int) returns (r: seq<Value>)
      requires Valid()
      ensures r == TrieSearch.SearchByPrefix(view, prefix, limit)
      ensures IsPrefixAnswer(view, prefix, limit, r)
    {
      PrefixAnswer(view, prefix, limit);
      if prefix == "" {
        return [];
      }
      var normalizedPrefix := Lower(prefix);
      LowerIdempotent(prefix);
      var node := FindNode(normalizedPrefix);
      if node == null {
        return [];
      }
      var results := new Results<PrefixHit>();
      CollectWords(node, results, normalizedPrefix);
      assert results.items == PrefixHits(view, normalizedPrefix);
      RankHits(view, prefix, limit);
      r := TopByFrequency(results.items, limit);
    }

    method FuzzySearchHelper(node: TrieNode, currentWord: string, query: string, maxDistance: int,
                             results: Results<FuzzyHit>)
      requires Valid() && currentWord in nodes && nodes[currentWord] == node
      modifies results
      ensures results.items == old(results.items) + FuzzyHits(view, currentWord, query, maxDistance)
      decreases Size(view, currentWord)
    {
      hide FuzzyHits, FuzzyHitsUpTo, EditDistance.Lev, EditDistance.IsEditDistance;
      ghost var base := results.items;
      assert LinkedAt(currentWord);
      FuzzyHitsEnds(base, view, currentWord, query, maxDistance);
      if node.isEndOfWord && node.data.Truthy? {
        var distance := EditDistance.LevenshteinDistance(currentWord, query);
        if distance <= maxDistance {
          results.Push(FuzzyHit(node.data, distance, node.frequency));
        }
      }
      var minPossibleDistance := Abs(|currentWord| - |query|);
      if minPossibleDistance > maxDistance {
        return;
      }
      for i := 0 to |node.order|
        invariant results.items == FuzzyHitsUpTo(base, view, currentWord, i, query, maxDistance)
      {
        FuzzyHitsNext(base, view, currentWord, i, query, maxDistance);
        FuzzySearchHelper(node.children[node.order[i]], currentWord + [node.order[i]], query, maxDistance, results);
      }
    }

    method FuzzySearch(query: string, maxDistance: int, limit: int) returns (r: seq<Value>)
      requires Valid()
      ensures r == TrieSearch.FuzzySearch(view, query, maxDistance, limit)
      ensures IsFuzzyAnswer(view, query, maxDistance, limit, r)
    {
      FuzzyAnswer(view, query, maxDistance, limit);
      if query == "" {
        return [];
      }
      var normalizedQuery := Lower(query);
      var results := new Results<FuzzyHit>();
      FuzzySearchHelper(root, "", normalizedQuery, maxDistance, results);
      assert results.items == FuzzyHits(view, "", normalizedQuery, maxDistance);
      RankFuzzyHits(view, query, maxDistance, limit);
      r := TopByDistance(results.items, limit);
    }

    method CountNodes(node: TrieNode, ghost p: string) returns (totalNodes: nat, totalWords: nat)
      requires Valid() && p in nodes && nodes[p] == node
      ensures totalNodes == NodeCount(view, p) && totalWords == WordCount(view, p)
      decreases Size(view, p)
    {
      hide CountsUpTo, NodeCount, WordCount;
      assert LinkedAt(p);
      CountsEnds(view, p);
      totalNodes := 1;
      totalWords := if node.isEndOfWord then 1 else 0;
      for i := 0 to |node.order|
        invariant (totalNodes, totalWords) == CountsUpTo(view, p, i)
      {
        CountsNext(view, p, i);
        var below, words := CountNodes(node.children[node.order[i]], p + [node.order[i]]);
        totalNodes, totalWords := totalNodes + below, totalWords + words;
      }
    }

    /** One node for the root and for each distinct non-empty prefix of a stored
        word, and one word for each stored word. */
    method GetStats() returns (stats: Stats)
      requires Valid()
      ensures stats == Stats(1 + |NonEmptyPrefixes(Dict(view))|, |Dict(view)|)
    {
      var totalNodes, totalWords := CountNodes(root, "");
      StatsCount(view);
      stats := Stats(totalNodes, totalWords);
    }
  }
}
