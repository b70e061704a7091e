/** Edit distance: the dynamic-programming table of `levenshteinDistance`
    (src/common/search/trie.service.ts) against its meaning, the length of a
    shortest script of single-character edits. */
module EditDistance {

  // ----- What the number means -----

  /** One edit, at a position of the string it is applied to. */
  datatype Edit = Insert(pos: nat, c: char) | Delete(pos: nat) | Substitute(pos: nat, c: char)

  predicate Applicable(e: Edit, s: string) {
    match e
    case Insert(pos, _) => pos <= |s|
    case Delete(pos) => pos < |s|
    case Substitute(pos, _) => pos < |s|
  }

  function Apply(e: Edit, s: string): string
    requires Applicable(e, s)
  {
    match e
    case Insert(pos, c) => s[..pos] + [c] + s[pos..]
    case Delete(pos) => s[..pos] + s[pos + 1..]
    case Substitute(pos, c) => s[..pos] + [c] + s[pos + 1..]
  }

  /** `script` turns `s` into `t`, one edit after the other. */
  predicate Transforms(script: seq<Edit>, s: string, t: string) {
    if script == [] then s == t
    else Applicable(script[0], s) && Transforms(script[1..], Apply(script[0], s), t)
  }

  /** `d` is the length of a shortest script from `s` to `t`. */
  ghost predicate IsEditDistance(s: string, t: string, d: nat) {
    && (exists script :: Transforms(script, s, t) && |script| == d)
    && (forall script :: Transforms(script, s, t) ==> d <= |script|)
  }

  // ----- The recurrence the table is filled with -----

  function Min(a: nat, b: nat): nat { if a <= b then a else b }

  function Last(s: string): char
    requires s != ""
  {
    s[|s| - 1]
  }

  function Front(s: string): string
    requires s != ""
  {
    s[..|s| - 1]
  }

  /** The value of the table's cell for the prefixes `s` and `t`: on a match
      only the diagonal neighbour is looked at. */
  function Lev(s: string, t: string): nat
    decreases |s| + |t|
  {
    if s == "" then |t|
    else if t == "" then |s|
    else if Last(s) == Last(t) then Lev(Front(s), Front(t))
    else 1 + Min(Min(Lev(Front(s), t), Lev(s, Front(t))), Lev(Front(s), Front(t)))
  }

  // ----- Neighbouring cells differ by at most one -----

  lemma {:induction false} Symmetric(s: string, t: string)
    ensures Lev(s, t) == Lev(t, s)
    decreases |s| + |t|
  {
    if s != "" && t != "" {
      Symmetric(Front(s), Front(t));
      Symmetric(Front(s), t);
      Symmetric(s, Front(t));
    }
  }

  lemma {:induction false} Neighbours(s: string, a: char, t: string)
    ensures Lev(s + [a], t) <= 1 + Lev(s, t)
    ensures Lev(s, t) <= 1 + Lev(s + [a], t)
    decreases |s| + |t|
  {
    var sa := s + [a];
    assert Front(sa) == s && Last(sa) == a;
    if t != "" {
      var u, b := Front(t), Last(t);
      assert u + [b] == t;
      NeighboursRight(s, u, b);
      Neighbours(s, a, u);
    }
  }

  lemma {:induction false} NeighboursRight(s: string, u: string, b: char)
    ensures Lev(s, u + [b]) <= 1 + Lev(s, u)
    ensures Lev(s, u) <= 1 + Lev(s, u + [b])
    decreases |s| + |u|
  {
    var t := u + [b];
    assert Front(t) == u && Last(t) == b;
    if s != "" {
      var r, a := Front(s), Last(s);
      assert r + [a] == s;
      Neighbours(r, a, u);
      NeighboursRight(r, u, b);
    }
  }

  lemma {:induction false} Diagonal(p: string, a: char, u: string, b: char)
    ensures Lev(p + [a], u + [b]) <= 1 + Lev(p, u)
  {
    assert Front(p + [a]) == p && Front(u + [b]) == u;
  }

  // ----- One edit changes a cell by at most one -----

  lemma {:induction false} SubstituteLast(p: string, a: char, b: char, t: string)
    ensures Lev(p + [a], t) <= 1 + Lev(p + [b], t)
    decreases |t|
  {
    assert Front(p + [a]) == p && Front(p + [b]) == p;
    if t == "" {
    } else {
      var u, c := Front(t), Last(t);
      assert u + [c] == t;
      Diagonal(p, a, u, c);
      Neighbours(p, a, t);
      SubstituteLast(p, a, b, u);
      NeighboursRight(p + [a], u, c);
    }
  }

  /** Replacing a stretch of at most one character by another such stretch. */
  lemma {:induction false} Replace(p: string, x: string, y: string, q: string, t: string)
    requires |x| <= 1 && |y| <= 1
    ensures Lev(p + x + q, t) <= 1 + Lev(p + y + q, t)
    decreases |q| + |t|
  {
    if q == "" {
      assert p + x + q == p + x && p + y + q == p + y;
      if x == "" {
        assert p + x == p;
        if y == "" { assert p + y == p; } else { assert y == [y[0]]; Neighbours(p, y[0], t); }
      } else if y == "" {
        assert p + y == p && x == [x[0]];
        Neighbours(p, x[0], t);
      } else {
        assert x == [x[0]] && y == [y[0]];
        SubstituteLast(p, x[0], y[0], t);
      }
    } else if t != "" {
      var r, u := Front(q), Front(t);
      assert Front(p + x + q) == p + x + r && Front(p + y + q) == p + y + r;
      Replace(p, x, y, r, t);
      Replace(p, x, y, q, u);
      Replace(p, x, y, r, u);
    }
  }

  lemma {:induction false} OneEdit(e: Edit, s: string, t: string)
    requires Applicable(e, s)
    ensures Lev(s, t) <= 1 + Lev(Apply(e, s), t)
    ensures Lev(Apply(e, s), t) <= 1 + Lev(s, t)
  {
    match e
    case Insert(pos, c) =>
      assert s == s[..pos] + "" + s[pos..];
      Replace(s[..pos], "", [c], s[pos..], t);
      Replace(s[..pos], [c], "", s[pos..], t);
    case Delete(pos) =>
      assert s == s[..pos] + [s[pos]] + s[pos + 1..];
      assert Apply(e, s) == s[..pos] + "" + s[pos + 1..];
      Replace(s[..pos], [s[pos]], "", s[pos + 1..], t);
      Replace(s[..pos], "", [s[pos]], s[pos + 1..], t);
    case Substitute(pos, c) =>
      assert s == s[..pos] + [s[pos]] + s[pos + 1..];
      Replace(s[..pos], [s[pos]], [c], s[pos + 1..], t);
      Replace(s[..pos], [c], [s[pos]], s[pos + 1..], t);
  }

  // ----- The recurrence is the length of a shortest script -----

  lemma {:induction false} SelfZero(s: string)
    ensures Lev(s, s) == 0
    decreases |s|
  {
    if s != "" { SelfZero(Front(s)); }
  }

  /** A script moves the distance to any third string by at most its length. */
  lemma {:induction false} ScriptBound(script: seq<Edit>, s: string, t: string, u: string)
    requires Transforms(script, s, t)
    ensures Lev(s, u) <= |script| + Lev(t, u)
    decreases script
  {
    if script != [] {
      OneEdit(script[0], s, u);
      ScriptBound(script[1..], Apply(script[0], s), t, u);
    }
  }

  lemma {:induction false} TransformsConcat(a: seq<Edit>, b: seq<Edit>, s: string, t: string, u: string)
    requires Transforms(a, s, t) && Transforms(b, t, u)
    ensures Transforms(a + b, s, u)
    decreases a
  {
    if a == [] {
      assert a + b == b;
    } else {
      TransformsConcat(a[1..], b, Apply(a[0], s), t, u);
      assert (a + b)[0] == a[0] && (a + b)[1..] == a[1..] + b;
    }
  }

  /** A script works unchanged on a string with one more character at the end. */
  lemma {:induction false} TransformsExtend(script: seq<Edit>, s: string, t: string, c: char)
    requires Transforms(script, s, t)
    ensures Transforms(script, s + [c], t + [c])
    decreases script
  {
    if script != [] {
      var e := script[0];
      assert Applicable(e, s + [c]) && Apply(e, s + [c]) == Apply(e, s) + [c];
      TransformsExtend(script[1..], Apply(e, s), t, c);
    }
  }

  lemma {:induction false} EditLast(script: seq<Edit>, e: Edit, s: string, t: string, u: string)
    requires Transforms(script, s, t) && Applicable(e, t) && Apply(e, t) == u
    ensures Transforms(script + [e], s, u)
  {
    assert [e][1..] == [];
    assert Transforms([e], t, u);
    TransformsConcat(script, [e], s, t, u);
  }

  lemma {:induction false} EditFirst(e: Edit, script: seq<Edit>, s: string, t: string, u: string)
    requires Applicable(e, s) && Apply(e, s) == t && Transforms(script, t, u)
    ensures Transforms([e] + script, s, u)
  {
    assert ([e] + script)[1..] == script;
  }

  lemma {:induction false} ShortestScript(s: string, t: string) returns (script: seq<Edit>)
    ensures Transforms(script, s, t) && |script| == Lev(s, t)
    decreases |s| + |t|
  {
    if s == "" || t == "" {
      script := ScriptFromNothing(s, t);
    } else {
      var p, a, u, b := Front(s), Last(s), Front(t), Last(t);
      assert s == p + [a] && t == u + [b];
      if a == b {
        script := ShortestScript(p, u);
        TransformsExtend(script, p, u, a);
      } else if Lev(s, t) == 1 + Lev(s, u) {
        script := ShortestScript(s, u);
        EditLast(script, Insert(|u|, b), s, u, t);
        script := script + [Insert(|u|, b)];
      } else if Lev(s, t) == 1 + Lev(p, t) {
        script := ShortestScript(p, t);
        EditFirst(Delete(|p|), script, s, p, t);
        script := [Delete(|p|)] + script;
      } else {
        script := ShortestScript(p, u);
        TransformsExtend(script, p, u, a);
        EditLast(script, Substitute(|u|, b), s, u + [a], t);
        script := script + [Substitute(|u|, b)];
      }
    }
  }

  lemma {:induction false} ScriptFromNothing(s: string, t: string) returns (script: seq<Edit>)
    requires s == "" || t == ""
    ensures Transforms(script, s, t) && |script| == |s| + |t|
    decreases |s| + |t|
  {
    if s != "" {
      script := ScriptFromNothing(Front(s), t);
      EditFirst(Delete(|s| - 1), script, s, Front(s), t);
      script := [Delete(|s| - 1)] + script;
    } else if t != "" {
      script := ScriptFromNothing(s, Front(t));
      EditLast(script, Insert(|t| - 1, Last(t)), s, Front(t), t);
      script := script + [Insert(|t| - 1, Last(t))];
    } else {
      script := [];
    }
  }

  /** The recurrence computes the edit distance, of every pair of strings. */
  lemma {:induction false} LevIsEditDistance(s: string, t: string)
    ensures IsEditDistance(s, t, Lev(s, t))
  {
    var best := ShortestScript(s, t);
    forall script | Transforms(script, s, t) ensures Lev(s, t) <= |script| {
      ScriptBound(script, s, t, t);
      SelfZero(t);
    }
  }

  lemma {:induction false} EditDistanceUnique(s: string, t: string, d: nat)
    requires IsEditDistance(s, t, d)
    ensures d == Lev(s, t)
  {
    LevIsEditDistance(s, t);
    var mine := ShortestScript(s, t);
    var script :| Transforms(script, s, t) && |script| == d;
  }

  // ----- It is a metric, bounded below by the length difference -----

  lemma {:induction false} TriangleInequality(s: string, t: string, u: string)
    ensures Lev(s, u) <= Lev(s, t) + Lev(t, u)
  {
    var script := ShortestScript(s, t);
    ScriptBound(script, s, t, u);
  }

  lemma {:induction false} ZeroOnlyWhenEqual(s: string, t: string)
    ensures Lev(s, t) == 0 <==> s == t
  {
    SelfZero(s);
    var script := ShortestScript(s, t);
  }

  lemma {:induction false} ScriptLength(script: seq<Edit>, s: string, t: string)
    requires Transforms(script, s, t)
    ensures -|script| <= |s| - |t| <= |script|
    decreases script
  {
    if script != [] { ScriptLength(script[1..], Apply(script[0], s), t); }
  }

  /** What the search prune relies on: lengths that differ by k cost k edits. */
  lemma {:induction false} AtLeastLengthDifference(s: string, t: string)
    ensures |s| - |t| <= Lev(s, t) && |t| - |s| <= Lev(s, t)
  {
    var script := ShortestScript(s, t);
    ScriptLength(script, s, t);
  }

  // ----- The table -----

  /** The cell of row `i` and column `j`. */
  function CellValue(s: string, t: string, i: nat, j: nat): nat
    requires i <= |s| && j <= |t|
  {
    Lev(s[..i], t[..j])
  }

  lemma {:induction false} CellRecurrence(s: string, t: string, i: nat, j: nat)
    requires 1 <= i <= |s| && 1 <= j <= |t|
    ensures CellValue(s, t, i, j) ==
      if s[i - 1] == t[j - 1] then CellValue(s, t, i - 1, j - 1)
      else 1 + Min(Min(CellValue(s, t, i - 1, j), CellValue(s, t, i, j - 1)), CellValue(s, t, i - 1, j - 1))
  {
    assert Front(s[..i]) == s[..i - 1] && Front(t[..j]) == t[..j - 1];
  }

  lemma {:induction false} CellBorder(s: string, t: string, k: nat)
    ensures k <= |s| ==> CellValue(s, t, k, 0) == k
    ensures k <= |t| ==> CellValue(s, t, 0, k) == k
  {
  }

  /** Fills the whole table, row by row, and returns its last cell. */
  method LevenshteinDistance(str1: string, str2: string) returns (d: nat)
    ensures d == Lev(str1, str2)
    ensures IsEditDistance(str1, str2, d)
  {
    var m, n := |str1|, |str2|;
    var dp := new nat[m + 1, n + 1]((_, _) => 0);
    for i := 0 to m + 1
      invariant forall k :: 0 <= k < i ==> dp[k, 0] == k
    {
      dp[i, 0] := i;
    }
    for j := 0 to n + 1
      invariant forall k :: 0 <= k <= m ==> dp[k, 0] == k
      invariant forall k :: 0 <= k < j ==> dp[0, k] == k
    {
      dp[0, j] := j;
    }
    forall k: nat ensures k <= m ==> CellValue(str1, str2, k, 0) == k
                  ensures k <= n ==> CellValue(str1, str2, 0, k) == k
    {
      CellBorder(str1, str2, k);
    }
    for i := 1 to m + 1
      invariant forall k :: 0 <= k <= m ==> dp[k, 0] == CellValue(str1, str2, k, 0)
      invariant forall k, l :: 0 <= k < i && 0 <= l <= n ==> dp[k, l] == CellValue(str1, str2, k, l)
    {
      for j := 1 to n + 1
        invariant forall k :: 0 <= k <= m ==> dp[k, 0] == CellValue(str1, str2, k, 0)
        invariant forall k, l :: 0 <= k < i && 0 <= l <= n ==> dp[k, l] == CellValue(str1, str2, k, l)
        invariant forall l :: 0 <= l < j ==> dp[i, l] == CellValue(str1, str2, i, l)
      {
        CellRecurrence(str1, str2, i, j);
        if str1[i - 1] == str2[j - 1] {
          dp[i, j] := dp[i - 1, j - 1];
        } else {
          dp[i, j] := 1 + Min(Min(dp[i - 1, j], dp[i, j - 1]), dp[i - 1, j - 1]);
        }
      }
    }
    assert str1[..m] == str1 && str2[..n] == str2;
    d := dp[m, n];
    LevIsEditDistance(str1, str2);
  }
}
