/** What every insert and delete keeps: the paths form a tree without dead
    branches, frequencies cover what hangs below them, and the trie refines a
    plain map. */
module TrieInvariants {
  import opened Sequences
  import opened TrieView

  // ----- Sums of frequencies -----

  lemma {:induction false} FreqSumAgree(v: View, u: View, p: string, keys: seq<char>)
    requires HasChildren(v, p, keys) && HasChildren(u, p, keys)
    requires forall c :: c in keys ==> v[p + [c]].freq == u[p + [c]].freq
    ensures FreqSum(v, p, keys) == FreqSum(u, p, keys)
    decreases keys
  {
    if keys != [] { FreqSumAgree(v, u, p, keys[..|keys| - 1]); }
  }

  lemma {:induction false} FreqSumBump(v: View, u: View, p: string, keys: seq<char>, c: char)
    requires HasChildren(v, p, keys) && HasChildren(u, p, keys) && c in keys
    requires forall d :: d in keys ==>
      u[p + [d]].freq == v[p + [d]].freq + if d == c then 1 else 0
    ensures FreqSum(u, p, keys) == FreqSum(v, p, keys) + 1
    decreases keys
  {
    var front := keys[..|keys| - 1];
    if keys[|keys| - 1] == c {
      FreqSumAgree(v, u, p, front);
    } else {
      FreqSumBump(v, u, p, front, c);
    }
  }

  lemma {:induction false} WithoutMembers(s: seq<char>, c: char)
    requires NoDup(s)
    ensures NoDup(Without(s, c))
    ensures forall d :: d in Without(s, c) <==> d in s && d != c
    decreases s
  {
    if s != [] {
      var front, last := s[..|s| - 1], s[|s| - 1];
      WithoutMembers(front, c);
      assert forall d :: d in s <==> d in front || d == last;
      assert last !in front;
    }
  }

  lemma {:induction false} WithoutAbsent(s: seq<char>, c: char)
    requires c !in s
    ensures Without(s, c) == s
    decreases s
  {
    if s != [] { WithoutAbsent(s[..|s| - 1], c); }
  }

  lemma {:induction false} FreqSumWithout(v: View, p: string, keys: seq<char>, c: char)
    requires HasChildren(v, p, keys) && c in keys
    ensures HasChildren(v, p, Without(keys, c))
    ensures FreqSum(v, p, keys) == FreqSum(v, p, Without(keys, c)) + v[p + [c]].freq
    decreases keys
  {
    WithoutMembers(keys, c);
    var front, d := keys[..|keys| - 1], keys[|keys| - 1];
    if d == c {
      WithoutAbsent(front, c);
    } else {
      FreqSumWithout(v, p, front, c);
      assert Without(keys, c) == Without(front, c) + [d];
      assert (Without(front, c) + [d])[..|Without(front, c)|] == Without(front, c);
    }
  }

  // ----- insert -----

  /** Between two rounds of the insertion loop, at node `at`: that node may
      still be a bare leaf, but its own visit is already counted. */
  ghost predicate Midway(v: View, at: string) {
    && Tree(v) && at in v
    && (forall p :: p in v && p != "" && p != at && v[p].keys == [] ==> v[p].isEnd)
    && (forall p {:trigger Demand(v, p)} :: p in v && p != "" && HasChildren(v, p, v[p].keys)
          ==> v[p].freq >= Demand(v, p) + if p == at then 1 else 0)
  }

  lemma ChildIsKey(v: View, p: string, c: char)
    requires Tree(v) && p + [c] in v
    ensures p in v && c in v[p].keys
  {
    ChildPath(p, c);
    assert HasParent(v, p + [c]);
  }

  lemma DescendChildren(v: View, p: string, c: char, r: string)
    requires Tree(v) && p in v && r in Descend(v, p, c)
    ensures HasChildren(Descend(v, p, c), r, Descend(v, p, c)[r].keys)
  {
    if r in v { assert HasChildren(v, r, v[r].keys); }
  }

  lemma DescendParent(v: View, p: string, c: char, r: string)
    requires Tree(v) && p in v && r in Descend(v, p, c)
    ensures HasParent(Descend(v, p, c), r)
  {
    ChildPath(p, c);
    if r in v { assert HasParent(v, r); }
  }

  lemma DescendDict(v: View, p: string, c: char)
    requires p in v
    ensures Dict(Descend(v, p, c)) == Dict(v)
  {
    var u := Descend(v, p, c);
    assert forall r :: r in v ==> r in u && u[r].isEnd == v[r].isEnd && u[r].data == v[r].data;
    assert forall r :: r in u && r !in v ==> !u[r].isEnd;
  }

  lemma DescendTree(v: View, p: string, c: char)
    requires Tree(v) && p in v
    ensures Tree(Descend(v, p, c))
  {
    var u := Descend(v, p, c);
    forall r | r in u
      ensures HasChildren(u, r, u[r].keys) && HasParent(u, r)
      ensures !u[r].isEnd ==> u[r].data == Null
    {
      DescendChildren(v, p, c, r);
      DescendParent(v, p, c, r);
    }
  }

  lemma DescendDemand(v: View, p: string, c: char, r: string)
    requires Tree(v) && p in v && r in Descend(v, p, c)
    requires Tree(Descend(v, p, c))
    requires HasChildren(Descend(v, p, c), r, Descend(v, p, c)[r].keys)
    requires r in v ==> HasChildren(v, r, v[r].keys)
    ensures Demand(Descend(v, p, c), r) == (if r in v then Demand(v, r) else 0) + if r == p then 1 else 0
  {
    var u := Descend(v, p, c);
    var q := p + [c];
    ChildPath(p, c);
    if r == p && q in v {
      ChildIsKey(v, p, c);
      forall d | d in v[p].keys
        ensures u[p + [d]].freq == v[p + [d]].freq + if d == c then 1 else 0
      {
        ChildPath(p, d);
      }
      FreqSumBump(v, u, p, v[p].keys, c);
    } else if r == p {
      var keys := v[p].keys;
      assert u[p].keys == keys + [c] && (keys + [c])[..|keys|] == keys;
      FreqSumAgree(v, u, p, keys);
    } else if r in v {
      forall d | d in v[r].keys ensures v[r + [d]].freq == u[r + [d]].freq {
        ChildPath(r, d);
      }
      FreqSumAgree(v, u, r, v[r].keys);
    }
  }

  lemma DescendMidway(v: View, p: string, c: char)
    requires Midway(v, p)
    ensures Midway(Descend(v, p, c), p + [c])
    ensures Dict(Descend(v, p, c)) == Dict(v)
  {
    var u, q := Descend(v, p, c), p + [c];
    DescendTree(v, p, c);
    DescendDict(v, p, c);
    ChildPath(p, c);
    forall r | r in u && r != "" && HasChildren(u, r, u[r].keys)
      ensures u[r].freq >= Demand(u, r) + if r == q then 1 else 0
    {
      if r in v { assert HasChildren(v, r, v[r].keys); }
      DescendDemand(v, p, c, r);
    }
    if q in v { ChildIsKey(v, p, c); }
  }

  lemma {:induction false} DescendToMidway(v: View, w: string, i: nat)
    requires Good(v) && i <= |w|
    ensures Midway(DescendTo(v, w, i), w[..i])
    ensures Dict(DescendTo(v, w, i)) == Dict(v)
    decreases i
  {
    if i > 0 {
      DescendToMidway(v, w, i - 1);
      assert w[..i - 1] + [w[i - 1]] == w[..i];
      DescendMidway(DescendTo(v, w, i - 1), w[..i - 1], w[i - 1]);
    }
  }

  /** `u` has the cells of `v`, with the same children and frequencies. */
  ghost predicate SameShape(v: View, u: View) {
    v.Keys == u.Keys && forall p :: p in v ==> u[p].keys == v[p].keys && u[p].freq == v[p].freq
  }

  lemma SameShapeDemand(v: View, u: View, p: string)
    requires SameShape(v, u) && p in v && HasChildren(v, p, v[p].keys)
    ensures HasChildren(u, p, u[p].keys) && FreqSum(v, p, v[p].keys) == FreqSum(u, p, u[p].keys)
  {
    FreqSumAgree(v, u, p, v[p].keys);
  }

  lemma SameShapeTree(v: View, u: View)
    requires SameShape(v, u) && Tree(v) && !u[""].isEnd
    requires forall p :: p in u && !u[p].isEnd ==> u[p].data == Null
    ensures Tree(u)
  {
    forall p | p in u ensures HasParent(u, p) && HasChildren(u, p, u[p].keys) {
      assert HasParent(v, p) && HasChildren(v, p, v[p].keys);
    }
  }

  /** The view after the node of `w` is marked as the end of a word. */
  function Mark(v: View, w: string, data: Value): View
    requires w in v
  {
    v[w := v[w].(isEnd := true, data := data)]
  }

  lemma MarkRanked(v: View, w: string, data: Value, p: string)
    requires Midway(v, w) && w != "" && p in v && p != ""
    requires HasChildren(Mark(v, w, data), p, Mark(v, w, data)[p].keys)
    ensures v[p].freq >= Demand(Mark(v, w, data), p)
  {
    var u := Mark(v, w, data);
    assert HasChildren(v, p, v[p].keys);
    SameShapeDemand(v, u, p);
    assert v[p].freq >= Demand(v, p) + if p == w then 1 else 0;
  }

  lemma MarkGood(v: View, w: string, data: Value)
    requires Midway(v, w) && w != ""
    ensures Good(Mark(v, w, data))
  {
    var u := Mark(v, w, data);
    SameShapeTree(v, u);
    forall p | p in u && p != "" && HasChildren(u, p, u[p].keys) ensures u[p].freq >= Demand(u, p) {
      MarkRanked(v, w, data, p);
    }
  }

  lemma MarkDict(v: View, w: string, data: Value)
    requires w in v
    ensures Dict(Mark(v, w, data)) == Dict(v)[w := data]
  {
  }

  /** Inserting a word keeps the trie well formed, and is a map update. */
  lemma InsertRefinesMap(v: View, w: string, data: Value)
    requires Good(v) && w != ""
    ensures Good(InsertWord(v, w, data))
    ensures Dict(InsertWord(v, w, data)) == Dict(v)[w := data]
  {
    DescendToMidway(v, w, |w|);
    assert w[..|w|] == w;
    MarkGood(DescendTo(v, w, |w|), w, data);
    MarkDict(DescendTo(v, w, |w|), w, data);
  }

  // ----- delete -----

  /** Well formed, except that the node at `p` may be a dead leaf. */
  ghost predicate Pruned(v: View, p: string) {
    && Tree(v) && p in v && Ranked(v)
    && (forall q :: q in v && q != "" && q != p && v[q].keys == [] ==> v[q].isEnd)
  }

  function Unmark(v: View, p: string): View
    requires p in v
  {
    v[p := v[p].(isEnd := false, data := Null)]
  }

  lemma UnmarkDict(v: View, p: string)
    requires p in v
    ensures Dict(Unmark(v, p)) == Dict(v) - {p}
  {
  }

  lemma UnmarkDemand(v: View, p: string, q: string)
    requires Good(v) && p in v && q in v && q != ""
    requires HasChildren(Unmark(v, p), q, Unmark(v, p)[q].keys)
    ensures v[q].freq >= Demand(Unmark(v, p), q)
  {
    assert HasChildren(v, q, v[q].keys);
    SameShapeDemand(v, Unmark(v, p), q);
    assert v[q].freq >= Demand(v, q);
  }

  lemma UnmarkPruned(v: View, p: string)
    requires Good(v) && p in v
    ensures Pruned(Unmark(v, p), p)
    ensures Dict(Unmark(v, p)) == Dict(v) - {p}
  {
    var u := Unmark(v, p);
    SameShapeTree(v, u);
    forall q | q in u && q != "" && HasChildren(u, q, u[q].keys) ensures u[q].freq >= Demand(u, q) {
      UnmarkDemand(v, p, q);
    }
    UnmarkDict(v, p);
  }

  /** The view after its parent drops the leaf at `p + [c]`. */
  function Drop(u: View, p: string, c: char): (r: View)
    requires p in u
    ensures r.Keys == u.Keys - {p + [c]} && p in r
  {
    assert |p + [c]| == |p| + 1;
    var cell := u[p].(keys := Without(u[p].keys, c));
    map q | q in u && q != p + [c] :: if q == p then cell else u[q]
  }

  lemma DropChildren(u: View, p: string, c: char, s: string)
    requires Tree(u) && p in u && s in Drop(u, p, c)
    ensures HasChildren(Drop(u, p, c), s, Drop(u, p, c)[s].keys)
  {
    var r := Drop(u, p, c);
    assert HasChildren(u, s, u[s].keys);
    WithoutMembers(u[s].keys, c);
    ChildPath(p, c);
    forall d | d in r[s].keys ensures s + [d] in r {
      ChildPath(s, d);
    }
  }

  lemma DropParent(u: View, p: string, c: char, s: string)
    requires Tree(u) && p in u && s in Drop(u, p, c)
    requires p + [c] in u && u[p + [c]].keys == []
    ensures HasParent(Drop(u, p, c), s)
  {
    assert HasParent(u, s) && HasChildren(u, p, u[p].keys);
    WithoutMembers(u[p].keys, c);
    if s != "" { Decompose(s); }
  }

  lemma DropDict(u: View, p: string, c: char)
    requires p in u && p + [c] in u && !u[p + [c]].isEnd
    ensures Dict(Drop(u, p, c)) == Dict(u)
  {
  }

  lemma DropTree(u: View, p: string, c: char)
    requires Tree(u) && p in u && p + [c] in u
    requires u[p + [c]].keys == [] && !u[p + [c]].isEnd
    ensures Tree(Drop(u, p, c)) && Dict(Drop(u, p, c)) == Dict(u)
  {
    var r := Drop(u, p, c);
    assert |p + [c]| == |p| + 1;
    forall s | s in r ensures HasChildren(r, s, r[s].keys) && HasParent(r, s) {
      DropChildren(u, p, c, s);
      DropParent(u, p, c, s);
    }
    DropDict(u, p, c);
  }

  lemma DropPruned(u: View, p: string, c: char)
    requires Pruned(u, p + [c]) && p in u
    requires u[p + [c]].keys == [] && !u[p + [c]].isEnd
    ensures Pruned(Drop(u, p, c), p) && Dict(Drop(u, p, c)) == Dict(u)
  {
    var r, q := Drop(u, p, c), p + [c];
    DropTree(u, p, c);
    ChildIsKey(u, p, c);
    assert |q| == |p| + 1;
    forall s | s in r && s != "" && HasChildren(r, s, r[s].keys) ensures r[s].freq >= Demand(r, s) {
      assert HasChildren(u, s, u[s].keys);
      assert u[s].freq >= Demand(u, s);
      if s == p {
        FreqSumWithout(u, p, u[p].keys, c);
      }
      FreqSumAgree(u, r, s, r[s].keys);
    }
  }

  lemma {:induction false} DeleteFromPrunes(v: View, w: string, i: nat)
    requires Good(v) && i <= |w| && w[..i] in v
    ensures var (u, remove) := DeleteFrom(v, w, i);
      && Pruned(u, w[..i])
      && Dict(u) == Dict(v) - {w}
      && (remove <==> w in Dict(v) && u[w[..i]].keys == [] && !u[w[..i]].isEnd)
      && (!remove ==> Good(u))
    decreases |w| - i
  {
    var p := w[..i];
    if i == |w| {
      assert p == w;
      if v[p].isEnd { UnmarkPruned(v, p); }
    } else {
      assert w[..i] + [w[i]] == w[..i + 1];
      if w[..i + 1] !in v {
        if w in v { WordBelow(v, w, i + 1); }
      } else {
        DeleteFromPrunes(v, w, i + 1);
        var (u, remove) := DeleteFrom(v, w, i + 1);
        DeleteKeepsPrefix(v, w, i + 1, i);
        if remove {
          DropPruned(u, p, w[i]);
          assert DeleteFrom(v, w, i).0 == Drop(u, p, w[i]);
        } else {
          ChildIsKey(u, p, w[i]);
        }
      }
    }
  }

  /** Cells have all their prefixes. */
  lemma {:induction false} WordBelow(v: View, w: string, i: nat)
    requires Tree(v) && i <= |w| && w in v
    ensures w[..i] in v
    decreases |w| - i
  {
    if i < |w| {
      WordBelow(v, w, i + 1);
      assert Parent(w[..i + 1]) == w[..i];
      assert HasParent(v, w[..i + 1]);
    } else {
      assert w[..i] == w;
    }
  }

  // ----- Paths and words -----

  /** The stored paths at or below `p`. */
  ghost function Subtree(v: View, p: string): set<string> {
    set q | q in v && p <= q
  }

  /** How many of them there are: what every walk down the tree decreases. */
  ghost function Size(v: View, p: string): nat {
    |Subtree(v, p)|
  }

  lemma SizeShrinks(v: View, p: string, c: char)
    requires p in v
    ensures Size(v, p + [c]) < Size(v, p)
  {
    var small, large := Subtree(v, p + [c]), Subtree(v, p);
    assert p in large && p !in small;
    forall q | q in small ensures q in large {
      assert p <= p + [c];
    }
    assert large == small + (large - small);
    assert |large - small| > 0 by { assert p in large - small; }
  }

  /** Without dead branches, below every node but a bare root there is a word. */
  lemma {:induction false} SomeWordBelow(v: View, p: string) returns (w: string)
    requires Tree(v) && NoDeadBranch(v) && p in v && (p != "" || v[p].keys != [])
    ensures w in Dict(v) && p <= w
    decreases Size(v, p)
  {
    if v[p].isEnd {
      w := p;
    } else {
      var c := v[p].keys[0];
      assert HasChildren(v, p, v[p].keys);
      SizeShrinks(v, p, c);
      w := SomeWordBelow(v, p + [c]);
      assert p <= p + [c];
    }
  }

  /** The nodes are exactly the root and the prefixes of the stored words. */
  lemma NodesArePrefixes(v: View, p: string)
    requires Good(v)
    ensures p in v <==> p == "" || exists w :: w in Dict(v) && p <= w
  {
    if p in v && p != "" {
      var w := SomeWordBelow(v, p);
    }
    if w :| w in Dict(v) && p <= w {
      WordBelow(v, w, |p|);
      assert w[..|p|] == p;
    }
  }

  /** `delete` removes exactly one key, and its result says whether the trie
      became empty by it. */
  lemma DeleteRefinesMap(v: View, w: string)
    requires Good(v)
    ensures Good(DeleteWord(v, w).0)
    ensures Dict(DeleteWord(v, w).0) == Dict(v) - {w}
    ensures DeleteWord(v, w).1 <==> Dict(v).Keys == {w}
  {
    assert w[..0] == "";
    DeleteFromPrunes(v, w, 0);
    var (u, remove) := DeleteWord(v, w);
    assert Good(u);
    if u[""].keys == [] {
      forall x | x in Dict(u) ensures false {
        WordBelow(u, x, 1);
        ChildIsKey(u, "", x[0]) by { assert x[..1] == "" + [x[0]]; }
      }
      assert Dict(u).Keys == {};
    } else {
      var x := SomeWordBelow(u, "");
    }
    assert Dict(u).Keys == Dict(v).Keys - {w};
  }

  // ----- Frequencies -----

  lemma {:induction false} FreqSumCovers(v: View, p: string, keys: seq<char>, c: char)
    requires HasChildren(v, p, keys) && c in keys
    ensures v[p + [c]].freq <= FreqSum(v, p, keys)
    decreases keys
  {
    if keys[|keys| - 1] != c { FreqSumCovers(v, p, keys[..|keys| - 1], c); }
  }

  /** Below a node frequencies never exceed its own, and are strictly smaller
      below a stored word. */
  lemma {:induction false} FrequencyFalls(v: View, p: string, q: string)
    requires Good(v) && p in v && q in v && p != "" && p < q
    ensures v[q].freq + (if v[p].isEnd then 1 else 0) <= v[p].freq
    decreases |q|
  {
    var r, c := Parent(q), Tip(q);
    Decompose(q);
    ChildIsKey(v, r, c);
    assert HasChildren(v, r, v[r].keys);
    assert v[r].freq >= Demand(v, r);
    FreqSumCovers(v, r, v[r].keys, c);
    if r != p {
      assert p <= r;
      FrequencyFalls(v, p, r);
    }
  }

  // ----- Every history -----

  datatype Op = Insert(word: string, data: Value) | Delete(word: string) | Clear

  /** One call, as `insert`, `delete` and `clear` treat their argument. */
  function Do(v: View, op: Op): (r: View)
    requires "" in v
    ensures "" in r
  {
    match op
    case Insert(word, data) => if word == "" then v else InsertWord(v, Lower(word), data)
    case Delete(word) => if word == "" then v else DeleteWord(v, Lower(word)).0
    case Clear => EMPTY
  }

  function DoMap(m: map<string, Value>, op: Op): map<string, Value> {
    match op
    case Insert(word, data) => if word == "" then m else m[Lower(word) := data]
    case Delete(word) => if word == "" then m else m - {Lower(word)}
    case Clear => map[]
  }

  function MapAfter(ops: seq<Op>): map<string, Value> {
    if ops == [] then map[] else DoMap(MapAfter(ops[..|ops| - 1]), ops[|ops| - 1])
  }

  function After(ops: seq<Op>): (v: View)
    ensures "" in v
  {
    if ops == [] then EMPTY else Do(After(ops[..|ops| - 1]), ops[|ops| - 1])
  }

  lemma EmptyGood()
    ensures Good(EMPTY) && Dict(EMPTY) == map[]
  {
    assert HasParent(EMPTY, "") && HasChildren(EMPTY, "", []);
  }

  lemma DoRefinesMap(v: View, op: Op)
    requires Good(v)
    ensures Good(Do(v, op)) && Dict(Do(v, op)) == DoMap(Dict(v), op)
  {
    match op
    case Insert(word, data) => if word != "" { InsertRefinesMap(v, Lower(word), data); }
    case Delete(word) => if word != "" { DeleteRefinesMap(v, Lower(word)); }
    case Clear => EmptyGood();
  }

  /** Over every history the node graph is a ranked tree without dead branches
      and holds exactly what a plain map would hold. */
  lemma {:induction false} HistoryRefinesMap(ops: seq<Op>)
    ensures Good(After(ops)) && Dict(After(ops)) == MapAfter(ops)
    decreases ops
  {
    if ops == [] {
      EmptyGood();
    } else {
      HistoryRefinesMap(ops[..|ops| - 1]);
      DoRefinesMap(After(ops[..|ops| - 1]), ops[|ops| - 1]);
    }
  }

  // ----- Upper and lower case -----

  /** No stored word has an upper-case letter. */
  ghost predicate Lowered(v: View) {
    forall w :: w in Dict(v) ==> !HasUpperCase(w)
  }

  lemma DoLowered(v: View, op: Op)
    requires Good(v) && Lowered(v)
    ensures Lowered(Do(v, op))
  {
    DoRefinesMap(v, op);
    hide Do, Good, Dict, HasUpperCase, Lower, SameUpToCase;
    if !op.Clear? { LowerIff(op.word, Lower(op.word)); }
  }

  lemma {:induction false} HistoryLowered(ops: seq<Op>)
    ensures Lowered(After(ops))
    decreases ops
  {
    if ops == [] {
      EmptyGood();
    } else {
      hide Do, Lowered;
      HistoryLowered(ops[..|ops| - 1]);
      HistoryRefinesMap(ops[..|ops| - 1]);
      DoLowered(After(ops[..|ops| - 1]), ops[|ops| - 1]);
    }
  }

  /** The stored words that are `u` up to case: at most one, and it is what a
      lookup of `u` finds. */
  lemma VariantsOf(v: View, u: string, k: string)
    requires Lowered(v) && k in Dict(v)
    ensures SameUpToCase(u, k) <==> k == Lower(u)
  {
    LowerIff(u, k);
  }

  /** After every history: inserting a word in any case makes all its case variants
      and nothing else found with its data; deleting it in any case makes all of
      them and nothing else missing. */
  lemma CaseNeverMatters(ops: seq<Op>, word: string, data: Value, u: string)
    requires word != ""
    ensures var before, inserted := Dict(After(ops)), Dict(After(ops + [Insert(word, data)]));
      var deleted := Dict(After(ops + [Delete(word)]));
      && (SameUpToCase(u, word) ==> Lower(u) in inserted && inserted[Lower(u)] == data && Lower(u) !in deleted)
      && (!SameUpToCase(u, word) ==>
            (Lower(u) in inserted <==> Lower(u) in before) && (Lower(u) in deleted <==> Lower(u) in before))
      && (!SameUpToCase(u, word) && Lower(u) in before ==>
            inserted[Lower(u)] == before[Lower(u)] == deleted[Lower(u)])
  {
    hide Do, Good, Dict, Lower, SameUpToCase;
    HistoryRefinesMap(ops);
    DoRefinesMap(After(ops), Insert(word, data));
    DoRefinesMap(After(ops), Delete(word));
    assert (ops + [Insert(word, data)])[..|ops|] == ops && (ops + [Delete(word)])[..|ops|] == ops;
    LowerAlikeIff(u, word);
  }

  // ----- What a frequency counts -----

  function Passes(p: string, w: string): nat { if p != "" && p <= w then 1 else 0 }

  lemma DescendFreq(v: View, p: string, c: char, q: string)
    requires Tree(v) && p in v
    ensures FreqAt(Descend(v, p, c), q) == FreqAt(v, q) + if q == p + [c] then 1 else 0
  {
    ChildPath(p, c);
  }

  lemma {:induction false} DescendToFreq(v: View, w: string, i: nat, q: string)
    requires Good(v) && i <= |w|
    ensures FreqAt(DescendTo(v, w, i), q) == FreqAt(v, q) + Passes(q, w[..i])
    decreases i
  {
    hide Descend, FreqAt;
    if i > 0 {
      DescendToFreq(v, w, i - 1, q);
      DescendToMidway(v, w, i - 1);
      assert w[..i - 1] + [w[i - 1]] == w[..i];
      DescendFreq(DescendTo(v, w, i - 1), w[..i - 1], w[i - 1], q);
      assert q <= w[..i] <==> q <= w[..i - 1] || q == w[..i];
    }
  }

  /** Inserting counts the word at its own prefixes and nowhere else. */
  lemma InsertFreq(v: View, w: string, data: Value, q: string)
    requires Good(v) && w != ""
    ensures FreqAt(InsertWord(v, w, data), q) == FreqAt(v, q) + Passes(q, w)
  {
    hide DescendTo;
    DescendToFreq(v, w, |w|, q);
    assert w[..|w|] == w;
  }

  /** Deleting only ever drops nodes. */
  lemma {:induction false} DeleteFreq(v: View, w: string, i: nat, q: string)
    requires i <= |w| && w[..i] in v
    ensures var u := DeleteFrom(v, w, i).0;
      q in u ==> q in v && u[q].freq == v[q].freq
    decreases |w| - i
  {
    if i < |w| && w[..i + 1] in v {
      DeleteFreq(v, w, i + 1, q);
    }
  }

  /** Some stored word has the prefix `p`. */
  ghost predicate Alive(m: map<string, Value>, p: string) {
    exists w :: w in m && p <= w
  }

  /** The inserts of words with the prefix `p` since the last time no stored word
      had it. */
  ghost function InsertsSince(ops: seq<Op>, p: string): nat {
    if ops == [] || !Alive(MapAfter(ops), p) then 0
    else
      var last := ops[|ops| - 1];
      InsertsSince(ops[..|ops| - 1], p) + if last.Insert? && last.word != "" then Passes(p, Lower(last.word)) else 0
  }

  lemma AliveIff(v: View, p: string)
    requires Good(v) && p != ""
    ensures p in v <==> Alive(Dict(v), p)
  {
    NodesArePrefixes(v, p);
  }

  lemma DoFreq(v: View, op: Op, p: string)
    requires Good(v) && p != "" && p in Do(v, op)
    ensures FreqAt(Do(v, op), p)
         == FreqAt(v, p) + if op.Insert? && op.word != "" then Passes(p, Lower(op.word)) else 0
  {
    hide InsertWord;
    match op
    case Insert(word, data) => if word != "" { InsertFreq(v, Lower(word), data, p); }
    case Delete(word) =>
      assert Lower(word)[..0] == "";
      DeleteFreq(v, Lower(word), 0, p);
    case Clear =>
  }

  /** After every history the frequency the ranking goes by is the number of
      inserts of words with this prefix since its node last appeared. */
  lemma {:induction false} FrequencyCounts(ops: seq<Op>, p: string)
    requires p != ""
    ensures FreqAt(After(ops), p) == InsertsSince(ops, p)
    decreases ops
  {
    hide Do, Good, Passes, Alive;
    HistoryRefinesMap(ops);
    AliveIff(After(ops), p);
    if ops != [] && p in After(ops) {
      var front := ops[..|ops| - 1];
      FrequencyCounts(front, p);
      HistoryRefinesMap(front);
      DoFreq(After(front), ops[|ops| - 1], p);
    }
  }
}
