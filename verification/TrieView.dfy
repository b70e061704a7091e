/** The trie of src/common/search/trie.service.ts as a value: one cell for every
    path from the root.  The operations here are what the methods of the node
    graph (TrieService.dfy) are proved against. */
module TrieView {
  import opened Sequences

  /** The `any` stored at a word; only its truthiness is ever looked at. */
  datatype Value = Null | Falsy(code: nat) | Truthy(id: nat)

  /** `keys` lists the children in the insertion order of a JavaScript `Map`. */
  datatype Cell = Cell(isEnd: bool, data: Value, freq: nat, keys: seq<char>)

  type View = map<string, Cell>

  const NEW_CELL := Cell(false, Null, 0, [])
  const EMPTY: View := map["" := NEW_CELL]

  // ----- Lower-casing -----

  function LowerChar(c: char): char {
    if 'A' <= c <= 'Z' then c - 'A' + 'a' else c
  }

  function Lower(s: string): (r: string)
    ensures |r| == |s|
  {
    seq(|s|, i requires 0 <= i < |s| => LowerChar(s[i]))
  }

  lemma LowerIdempotent(s: string)
    ensures Lower(Lower(s)) == Lower(s)
  {
  }

  /** The same letter in upper and in lower case: equal places in two alphabets. */
  predicate CasePair(upper: char, lower: char) {
    'A' <= upper <= 'Z' && 'a' <= lower <= 'z' && upper as int - 'A' as int == lower as int - 'a' as int
  }

  predicate SameLetter(a: char, b: char) {
    a == b || CasePair(a, b) || CasePair(b, a)
  }

  /** Equal but for the case of letters. */
  predicate SameUpToCase(a: string, b: string) {
    |a| == |b| && forall i :: 0 <= i < |a| ==> SameLetter(a[i], b[i])
  }

  predicate HasUpperCase(s: string) {
    exists i :: 0 <= i < |s| && 'A' <= s[i] <= 'Z'
  }

  /** Words have one lower-cased form exactly if they differ in case only. */
  lemma LowerAlikeIff(a: string, b: string)
    ensures Lower(a) == Lower(b) <==> SameUpToCase(a, b)
  {
    forall i | 0 <= i < |a| && i < |b| ensures LowerChar(a[i]) == LowerChar(b[i]) <==> SameLetter(a[i], b[i]) {
    }
    if Lower(a) == Lower(b) {
      assert |Lower(a)| == |a| && |Lower(b)| == |b|;
      forall i | 0 <= i < |a| ensures SameLetter(a[i], b[i]) {
        assert Lower(a)[i] == LowerChar(a[i]) && Lower(b)[i] == LowerChar(b[i]);
      }
    }
  }

  /** The lower-cased form is the one variant without an upper-case letter. */
  lemma LowerIff(a: string, b: string)
    ensures b == Lower(a) <==> SameUpToCase(a, b) && !HasUpperCase(b)
  {
    LowerAlikeIff(a, b);
    if SameUpToCase(a, b) && !HasUpperCase(b) {
      forall i | 0 <= i < |b| ensures LowerChar(b[i]) == b[i] {
      }
      assert Lower(b) == b;
    }
    if b == Lower(a) {
      LowerIdempotent(a);
      forall i | 0 <= i < |b| ensures !('A' <= b[i] <= 'Z') {
        assert b[i] == LowerChar(a[i]);
      }
    }
  }

  // ----- Paths -----

  function Parent(p: string): string
    requires p != ""
  {
    p[..|p| - 1]
  }

  function Tip(p: string): char
    requires p != ""
  {
    p[|p| - 1]
  }

  lemma ChildPath(p: string, c: char)
    ensures Parent(p + [c]) == p && Tip(p + [c]) == c
  {
  }

  lemma Decompose(p: string)
    requires p != ""
    ensures Parent(p) + [Tip(p)] == p
  {
  }

  // ----- Well-formed views -----

  /** The cell of `p` hangs from its parent's cell, under one of its keys. */
  ghost predicate HasParent(v: View, p: string) {
    p == "" || (Parent(p) in v && Tip(p) in v[Parent(p)].keys)
  }

  /** `keys` has no duplicates and each key of `p` has its cell. */
  ghost predicate HasChildren(v: View, p: string, keys: seq<char>) {
    NoDup(keys) && forall c :: c in keys ==> p + [c] in v
  }

  /** A tree of paths. */
  ghost predicate Tree(v: View) {
    && "" in v && !v[""].isEnd
    && (forall p {:trigger HasParent(v, p)} :: p in v ==> HasParent(v, p))
    && (forall p {:trigger HasChildren(v, p, v[p].keys)} :: p in v ==> HasChildren(v, p, v[p].keys))
    && (forall p :: p in v && !v[p].isEnd ==> v[p].data == Null)
  }

  /** Every leaf but the root ends a word. */
  ghost predicate NoDeadBranch(v: View) {
    forall p :: p in v && p != "" && v[p].keys == [] ==> v[p].isEnd
  }

  /** The frequencies of the children `keys` of `p`, added up. */
  ghost function FreqSum(v: View, p: string, keys: seq<char>): nat
    requires HasChildren(v, p, keys)
  {
    if keys == [] then 0
    else FreqSum(v, p, keys[..|keys| - 1]) + v[p + [keys[|keys| - 1]]].freq
  }

  /** What a node's frequency has to cover. */
  ghost function Demand(v: View, p: string): nat
    requires p in v && HasChildren(v, p, v[p].keys)
  {
    FreqSum(v, p, v[p].keys) + if v[p].isEnd then 1 else 0
  }

  ghost predicate Ranked(v: View)
  {
    forall p {:trigger Demand(v, p)} :: p in v && p != "" && HasChildren(v, p, v[p].keys) ==> v[p].freq >= Demand(v, p)
  }

  ghost predicate Good(v: View) {
    Tree(v) && NoDeadBranch(v) && Ranked(v)
  }

  /** The plain map from words to data that the trie stands for. */
  function Dict(v: View): map<string, Value> {
    map p | p in v && v[p].isEnd :: v[p].data
  }

  function FreqAt(v: View, w: string): nat { if w in v then v[w].freq else 0 }

  // ----- insert -----

  /** `p` gets a child under `c` when it has none. */
  function Grow(v: View, p: string, c: char): (r: View)
    requires p in v
    ensures p + [c] in r
  {
    if p + [c] in v then v
    else v[p := v[p].(keys := v[p].keys + [c])][p + [c] := NEW_CELL]
  }

  function Counted(v: View, p: string): View
    requires p in v
  {
    v[p := v[p].(freq := v[p].freq + 1)]
  }

  /** One round of the insertion loop: go from `p` to its child under `c`,
      creating it when it is missing, and count the visit. */
  function Descend(v: View, p: string, c: char): View
    requires p in v
  {
    Counted(Grow(v, p, c), p + [c])
  }

  /** The view after the first `i` rounds for `w`. */
  function DescendTo(v: View, w: string, i: nat): (r: View)
    requires "" in v && i <= |w|
    ensures w[..i] in r && "" in r
  {
    if i == 0 then v
    else
      assert w[..i - 1] + [w[i - 1]] == w[..i];
      Descend(DescendTo(v, w, i - 1), w[..i - 1], w[i - 1])
  }

  /** `insert`, for a word that is already in lower case. */
  function InsertWord(v: View, w: string, data: Value): (r: View)
    requires "" in v
    ensures "" in r
  {
    assert w[..|w|] == w;
    var u := DescendTo(v, w, |w|);
    u[w := u[w].(isEnd := true, data := data)]
  }

  // ----- delete -----

  function Without(s: seq<char>, c: char): seq<char> {
    if s == [] then []
    else if s[|s| - 1] == c then Without(s[..|s| - 1], c)
    else Without(s[..|s| - 1], c) + [s[|s| - 1]]
  }

  /** `deleteHelper` at the node of `w[..i]`: the view afterwards, and whether
      that node should be removed by its parent. */
  function DeleteFrom(v: View, w: string, i: nat): (r: (View, bool))
    requires i <= |w| && w[..i] in v
    ensures w[..i] in r.0
    decreases |w| - i, 0
  {
    var p := w[..i];
    if i == |w| then
      if !v[p].isEnd then (v, false)
      else (v[p := v[p].(isEnd := false, data := Null)], v[p].keys == [])
    else if w[..i + 1] !in v then (v, false)
    else
      var (u, remove) := DeleteFrom(v, w, i + 1);
      DeleteKeepsPrefix(v, w, i + 1, i);
      if !remove then (u, false)
      else
        var cell := u[p].(keys := Without(u[p].keys, w[i]));
        (map q | q in u && q != w[..i + 1] :: if q == p then cell else u[q],
         cell.keys == [] && !cell.isEnd)
  }

  lemma DeleteKeepsPrefix(v: View, w: string, i: nat, j: nat)
    requires j < i <= |w| && w[..i] in v && w[..j] in v
    ensures w[..j] in DeleteFrom(v, w, i).0 && DeleteFrom(v, w, i).0[w[..j]] == v[w[..j]]
    decreases |w| - i, 1
  {
    assert |w[..j]| < |w[..i]|;
    if i < |w| && w[..i + 1] in v {
      DeleteKeepsPrefix(v, w, i + 1, j);
    }
  }

  function DeleteWord(v: View, w: string): (r: (View, bool))
    requires "" in v
    ensures "" in r.0
  {
    assert w[..0] == "";
    DeleteFrom(v, w, 0)
  }
}
