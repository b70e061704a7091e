/** The contract of `Array.prototype.sort`: a stable sort by a total preorder. */
module StableSort {

  ghost predicate TotalPreorder<T(!new)>(le: (T, T) -> bool) {
    && (forall x, y :: le(x, y) || le(y, x))
    && (forall x, y, z :: le(x, y) && le(y, z) ==> le(x, z))
  }

  ghost predicate Sorted<T>(s: seq<T>, le: (T, T) -> bool) {
    forall i, j :: 0 <= i < j < |s| ==> le(s[i], s[j])
  }

  /** Puts `x` in front of the first element that is not strictly before it. */
  function Place<T>(x: T, s: seq<T>, le: (T, T) -> bool): seq<T> {
    if s == [] || le(x, s[0]) then [x] + s else [s[0]] + Place(x, s[1..], le)
  }

  function Sort<T>(s: seq<T>, le: (T, T) -> bool): seq<T> {
    if s == [] then [] else Place(s[0], Sort(s[1..], le), le)
  }

  /** The elements of `s` that `le` does not tell apart from `x`, in order. */
  function Ties<T>(s: seq<T>, x: T, le: (T, T) -> bool): seq<T> {
    if s == [] then []
    else (if le(s[0], x) && le(x, s[0]) then [s[0]] else []) + Ties(s[1..], x, le)
  }

  lemma {:induction false} PlaceMultiset<T>(x: T, s: seq<T>, le: (T, T) -> bool)
    ensures multiset(Place(x, s, le)) == multiset(s) + multiset{x}
    decreases s
  {
    if s == [] || le(x, s[0]) {
    } else {
      PlaceMultiset(x, s[1..], le);
      assert s == [s[0]] + s[1..];
    }
  }

  lemma {:induction false} PlaceSorted<T(!new)>(x: T, s: seq<T>, le: (T, T) -> bool)
    requires TotalPreorder(le) && Sorted(s, le)
    ensures Sorted(Place(x, s, le), le)
    decreases s
  {
    if s == [] {
    } else if le(x, s[0]) {
      var r := [x] + s;
      forall i, j | 0 <= i < j < |r| ensures le(r[i], r[j]) {
        if i == 0 && j > 1 { assert le(s[0], s[j - 1]); }
      }
    } else {
      var rest := Place(x, s[1..], le);
      PlaceSorted(x, s[1..], le);
      PlaceMultiset(x, s[1..], le);
      var r := [s[0]] + rest;
      forall i, j | 0 <= i < j < |r| ensures le(r[i], r[j]) {
        if i == 0 {
          assert rest[j - 1] in multiset(rest);
          assert rest[j - 1] == x || rest[j - 1] in s[1..];
        }
      }
    }
  }

  lemma {:induction false} PlaceTies<T(!new)>(x: T, s: seq<T>, y: T, le: (T, T) -> bool)
    requires TotalPreorder(le) && Sorted(s, le)
    ensures Ties(Place(x, s, le), y, le) == Ties([x] + s, y, le)
    decreases s
  {
    if s != [] && !le(x, s[0]) {
      PlaceTies(x, s[1..], y, le);
      assert ([x] + s)[1..] == s && ([x] + s[1..])[1..] == s[1..];
      assert ([s[0]] + Place(x, s[1..], le))[1..] == Place(x, s[1..], le);
    }
  }

  lemma {:induction false} SortMultiset<T>(s: seq<T>, le: (T, T) -> bool)
    ensures multiset(Sort(s, le)) == multiset(s)
    decreases s
  {
    if s != [] {
      SortMultiset(s[1..], le);
      PlaceMultiset(s[0], Sort(s[1..], le), le);
      assert s == [s[0]] + s[1..];
    }
  }

  /** Sorted, the same elements, and equal elements keep their order. */
  lemma {:induction false} SortCorrect<T(!new)>(s: seq<T>, le: (T, T) -> bool)
    requires TotalPreorder(le)
    ensures Sorted(Sort(s, le), le)
    ensures multiset(Sort(s, le)) == multiset(s)
    ensures forall y :: Ties(Sort(s, le), y, le) == Ties(s, y, le)
    decreases s
  {
    SortMultiset(s, le);
    if s != [] {
      var rest := Sort(s[1..], le);
      SortCorrect(s[1..], le);
      PlaceSorted(s[0], rest, le);
      forall y ensures Ties(Sort(s, le), y, le) == Ties(s, y, le) {
        PlaceTies(s[0], rest, y, le);
        assert ([s[0]] + rest)[1..] == rest;
      }
    }
  }

  /** Equal elements stand in the order `before`. */
  ghost predicate TiesOrdered<T>(r: seq<T>, le: (T, T) -> bool, before: (T, T) -> bool) {
    forall i, j :: 0 <= i < j < |r| && le(r[j], r[i]) ==> before(r[i], r[j])
  }

  lemma TiesCons<T>(x: T, s: seq<T>, le: (T, T) -> bool, before: (T, T) -> bool)
    requires TiesOrdered(s, le, before)
    requires forall k :: 0 <= k < |s| && le(s[k], x) ==> before(x, s[k])
    ensures TiesOrdered([x] + s, le, before)
  {
    var r := [x] + s;
    forall i, j | 0 <= i < j < |r| && le(r[j], r[i]) ensures before(r[i], r[j]) {
      assert r[j] == s[j - 1] && (i > 0 ==> r[i] == s[i - 1]);
    }
  }

  lemma {:induction false} PlaceStable<T(!new)>(x: T, s: seq<T>, le: (T, T) -> bool, before: (T, T) -> bool)
    requires TotalPreorder(le) && Sorted(s, le) && TiesOrdered(s, le, before)
    requires forall k :: 0 <= k < |s| ==> before(x, s[k])
    ensures TiesOrdered(Place(x, s, le), le, before)
    decreases s
  {
    if s == [] || le(x, s[0]) {
      TiesCons(x, s, le, before);
    } else {
      var rest := Place(x, s[1..], le);
      PlaceStable(x, s[1..], le, before);
      PlaceMultiset(x, s[1..], le);
      forall k | 0 <= k < |rest| && le(rest[k], s[0]) ensures before(s[0], rest[k]) {
        assert rest[k] in multiset(rest);
        var j :| 0 <= j < |s[1..]| && s[1..][j] == rest[k];
        assert s[j + 1] == rest[k];
      }
      TiesCons(s[0], rest, le, before);
    }
  }

  /** Things that came one before the other stay so among equals. */
  lemma {:induction false} SortStable<T(!new)>(s: seq<T>, le: (T, T) -> bool, before: (T, T) -> bool)
    requires TotalPreorder(le) && Sorted(s, before)
    ensures TiesOrdered(Sort(s, le), le, before)
    decreases s
  {
    hide TotalPreorder, TiesOrdered, Place, Ties;
    if s == [] {
      NoTies(le, before);
    } else {
      var rest := Sort(s[1..], le);
      SortCorrect(s[1..], le);
      SortStable(s[1..], le, before);
      forall k | 0 <= k < |rest| ensures before(s[0], rest[k]) {
        assert rest[k] in multiset(s[1..]);
      }
      PlaceStable(s[0], rest, le, before);
    }
  }

  lemma NoTies<T>(le: (T, T) -> bool, before: (T, T) -> bool)
    ensures TiesOrdered([], le, before)
  {
  }

  function Map<A, B>(f: A -> B, s: seq<A>): seq<B> {
    seq(|s|, i requires 0 <= i < |s| => f(s[i]))
  }

  /** Sorting records by a field is sorting the things they were made from. */
  lemma {:induction false} SortMap<A(!new), B>(f: A -> B, s: seq<A>, leA: (A, A) -> bool, leB: (B, B) -> bool)
    requires forall x, y :: leA(x, y) == leB(f(x), f(y))
    ensures Sort(Map(f, s), leB) == Map(f, Sort(s, leA))
    decreases s
  {
    if s != [] {
      SortMap(f, s[1..], leA, leB);
      assert Map(f, s)[1..] == Map(f, s[1..]);
      PlaceMap(f, s[0], Sort(s[1..], leA), leA, leB);
    }
  }

  lemma {:induction false} PlaceMap<A(!new), B>(f: A -> B, x: A, s: seq<A>, leA: (A, A) -> bool, leB: (B, B) -> bool)
    requires forall x, y :: leA(x, y) == leB(f(x), f(y))
    ensures Place(f(x), Map(f, s), leB) == Map(f, Place(x, s, leA))
    decreases s
  {
    if s == [] || leA(x, s[0]) {
    } else {
      PlaceMap(f, x, s[1..], leA, leB);
      assert Map(f, s)[1..] == Map(f, s[1..]);
    }
  }

  /** `Array.prototype.slice(0, limit)`: a negative limit counts from the end. */
  function SliceTo<T>(s: seq<T>, limit: int): (r: seq<T>)
    ensures r <= s
    ensures limit >= 0 ==> |r| == if limit <= |s| then limit else |s|
    ensures limit < 0 ==> |r| == if |s| + limit >= 0 then |s| + limit else 0
  {
    if limit >= |s| then s
    else if limit >= 0 then s[..limit]
    else if limit + |s| >= 0 then s[..limit + |s|]
    else []
  }

  /** Cutting a list of records and then reading a field is cutting the list of
      fields. */
  lemma SliceMap<A(!new), B, C>(f: A -> B, g: B -> C, h: A -> C, s: seq<A>, limit: int)
    requires forall x :: g(f(x)) == h(x)
    ensures Map(g, SliceTo(Map(f, s), limit)) == Map(h, SliceTo(s, limit))
  {
  }
}
