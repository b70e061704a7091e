/** What several modules need of sequences. */
module Sequences {

  ghost predicate NoDup<T>(s: seq<T>) {
    forall i, j :: 0 <= i < j < |s| ==> s[i] != s[j]
  }

  /** The first place of `x`, or the length when it is nowhere. */
  function IndexIn<T(==)>(s: seq<T>, x: T): (i: nat)
    ensures i <= |s|
    ensures i < |s| ==> s[i] == x
    ensures forall k :: 0 <= k < i ==> s[k] != x
  {
    if s == [] || s[0] == x then 0 else 1 + IndexIn(s[1..], x)
  }

  // ----- Filtering -----

  /** `now` is `was` without the entries that `gone` picks, in the same order. */
  ghost predicate Filtered<T(!new)>(was: seq<T>, gone: T -> bool, now: seq<T>) {
    && (forall x :: multiset(now)[x] == if gone(x) then 0 else multiset(was)[x])
    && KeepsOrder(was, now)
  }

  ghost predicate KeepsOrder<T>(was: seq<T>, now: seq<T>) {
    forall i, j :: 0 <= i < j < |now| ==> InOrder(was, now[i], now[j])
  }

  ghost predicate InOrder<T>(s: seq<T>, x: T, y: T) {
    exists a, b :: 0 <= a < b < |s| && s[a] == x && s[b] == y
  }

  lemma InOrderSnoc<T>(s: seq<T>, z: T, x: T, y: T)
    requires InOrder(s, x, y) || (x in s && y == z)
    ensures InOrder(s + [z], x, y)
  {
    var all := s + [z];
    if InOrder(s, x, y) {
      var a, b :| 0 <= a < b < |s| && s[a] == x && s[b] == y;
      assert all[a] == x && all[b] == y;
    } else {
      var a :| 0 <= a < |s| && s[a] == x;
      assert all[a] == x && all[|s|] == y;
    }
  }

  lemma KeepsOrderSnoc<T>(was: seq<T>, x: T, now: seq<T>)
    requires KeepsOrder(was, now) && forall k :: 0 <= k < |now| ==> now[k] in was
    ensures KeepsOrder(was + [x], now) && KeepsOrder(was + [x], now + [x])
  {
    hide InOrder;
    var kept := now + [x];
    forall i, j | 0 <= i < j < |kept| ensures InOrder(was + [x], kept[i], kept[j]) {
      InOrderSnoc(was, x, kept[i], kept[j]);
    }
    forall i, j | 0 <= i < j < |now| ensures InOrder(was + [x], now[i], now[j]) {
      InOrderSnoc(was, x, now[i], now[j]);
    }
  }

  lemma FilteredSnoc<T(!new)>(was: seq<T>, x: T, gone: T -> bool, now: seq<T>)
    requires Filtered(was, gone, now)
    ensures Filtered(was + [x], gone, if gone(x) then now else now + [x])
  {
    hide KeepsOrder;
    forall k | 0 <= k < |now| ensures now[k] in was {
      assert now[k] in multiset(now);
      assert now[k] in multiset(was);
    }
    KeepsOrderSnoc(was, x, now);
  }

  lemma NothingFiltered<T(!new)>(gone: T -> bool)
    ensures Filtered([], gone, [])
  {
  }
}
