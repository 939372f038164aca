/** The stable sort behind Python's `list.sort(key=...)` and `sorted(...)`.
    The order is given as a relation `before(a, b)`, "a may stand before b",
    which for a key sort is `key(a) <= key(b)` (or `>=` with `reverse=True`). */
module Sorting {

  ghost predicate Total<T(!new)>(before: (T, T) -> bool) {
    forall a, b :: before(a, b) || before(b, a)
  }

  ghost predicate Transitive<T(!new)>(before: (T, T) -> bool) {
    forall a, b, c :: before(a, b) && before(b, c) ==> before(a, c)
  }

  /** The relation of a key sort: total and transitive. */
  ghost predicate TotalPreorder<T(!new)>(before: (T, T) -> bool) {
    Total(before) && Transitive(before)
  }

  predicate SortedBy<T>(s: seq<T>, before: (T, T) -> bool) {
    forall i, j :: 0 <= i < j < |s| ==> before(s[i], s[j])
  }

  /** Two elements with equal keys. */
  predicate Tied<T>(a: T, b: T, before: (T, T) -> bool) {
    before(a, b) && before(b, a)
  }

  /** The elements of `s` tied with `c`, in their order in `s`. */
  function TiedWith<T>(s: seq<T>, c: T, before: (T, T) -> bool): seq<T> {
    if s == [] then []
    else (if Tied(s[0], c, before) then [s[0]] else []) + TiedWith(s[1..], c, before)
  }

  /** Places `x` before the first element it may stand before. */
  function Insert<T>(x: T, s: seq<T>, before: (T, T) -> bool): (r: seq<T>)
    ensures multiset(r) == multiset(s) + multiset{x} && |r| == |s| + 1
  {
    if s == [] || before(x, s[0]) then [x] + s
    else
      assert s == [s[0]] + s[1..];
      [s[0]] + Insert(x, s[1..], before)
  }

  /** Stable insertion sort. */
  function SortBy<T>(s: seq<T>, before: (T, T) -> bool): (r: seq<T>)
    ensures multiset(r) == multiset(s) && |r| == |s|
  {
    if s == [] then []
    else
      assert s == [s[0]] + s[1..];
      Insert(s[0], SortBy(s[1..], before), before)
  }

  /** An element before everything in a sorted sequence can go in front. */
  lemma ConsSorted<T>(h: T, tail: seq<T>, before: (T, T) -> bool)
    requires SortedBy(tail, before) && forall y :: y in tail ==> before(h, y)
    ensures SortedBy([h] + tail, before)
  {
    var r := [h] + tail;
    forall i, j | 0 <= i < j < |r| ensures before(r[i], r[j]) {
      assert r[j] == tail[j - 1];
      if i == 0 {
        assert r[j] in tail;
      } else {
        assert r[i] == tail[i - 1];
      }
    }
  }

  lemma {:induction false} InsertSorted<T(!new)>(x: T, s: seq<T>, before: (T, T) -> bool)
    requires TotalPreorder(before) && SortedBy(s, before)
    ensures SortedBy(Insert(x, s, before), before)
  {
    if s != [] && !before(x, s[0]) {
      var tail := Insert(x, s[1..], before);
      InsertSorted(x, s[1..], before);
      assert before(s[0], x);
      forall y | y in tail ensures before(s[0], y) {
        assert y in multiset(tail);
        if y != x {
          assert y in multiset(s[1..]);
          var j :| 0 <= j < |s[1..]| && s[1..][j] == y;
          assert s[j + 1] == y;
        }
      }
      ConsSorted(s[0], tail, before);
    }
  }

  /** The sort's output is ordered. */
  lemma {:induction false} SortBySorted<T(!new)>(s: seq<T>, before: (T, T) -> bool)
    requires TotalPreorder(before)
    ensures SortedBy(SortBy(s, before), before)
  {
    if s != [] {
      SortBySorted(s[1..], before);
      InsertSorted(s[0], SortBy(s[1..], before), before);
    }
  }

  /** Sorting an ordered sequence leaves it unchanged. */
  lemma {:induction false} SortBySortedIdentity<T>(s: seq<T>, before: (T, T) -> bool)
    requires SortedBy(s, before)
    ensures SortBy(s, before) == s
  {
    if s != [] {
      assert SortedBy(s[1..], before) by {
        forall i, j | 0 <= i < j < |s[1..]| ensures before(s[1..][i], s[1..][j]) {
          assert s[1..][i] == s[i + 1] && s[1..][j] == s[j + 1];
        }
      }
      SortBySortedIdentity(s[1..], before);
      if |s| > 1 {
        assert before(s[0], s[1..][0]);
      }
      assert [s[0]] + s[1..] == s;
    }
  }

  /** A slice of a sorted sequence is sorted. */
  lemma SortedSlice<T>(s: seq<T>, before: (T, T) -> bool, lo: nat, hi: nat)
    requires SortedBy(s, before) && lo <= hi <= |s|
    ensures SortedBy(s[lo..hi], before)
  {
    forall i, k | 0 <= i < k < hi - lo ensures before(s[lo..hi][i], s[lo..hi][k]) {
      assert s[lo..hi][i] == s[lo + i] && s[lo..hi][k] == s[lo + k];
    }
  }

  lemma TiedWithCons<T>(a: T, t: seq<T>, c: T, before: (T, T) -> bool)
    ensures TiedWith([a] + t, c, before) == (if Tied(a, c, before) then [a] else []) + TiedWith(t, c, before)
  {
    assert ([a] + t)[1..] == t;
  }

  /** An element cannot be passed over by an insertion of one it is tied with. */
  lemma NotBothTied<T(!new)>(x: T, y: T, c: T, before: (T, T) -> bool)
    requires Transitive(before) && !before(x, y)
    ensures !(Tied(x, c, before) && Tied(y, c, before))
  {
  }

  lemma {:induction false} TiedWithInsert<T(!new)>(x: T, s: seq<T>, c: T, before: (T, T) -> bool)
    requires Transitive(before)
    ensures TiedWith(Insert(x, s, before), c, before)
         == (if Tied(x, c, before) then [x] else []) + TiedWith(s, c, before)
    decreases |s|, 1
  {
    if s == [] || before(x, s[0]) {
      TiedWithCons(x, s, c, before);
    } else {
      TiedWithInsertPast(x, s, c, before);
    }
  }

  /** The case where `x` goes past the head of `s`. */
  lemma {:induction false} TiedWithInsertPast<T(!new)>(x: T, s: seq<T>, c: T, before: (T, T) -> bool)
    requires Transitive(before) && s != [] && !before(x, s[0])
    ensures TiedWith(Insert(x, s, before), c, before)
         == (if Tied(x, c, before) then [x] else []) + TiedWith(s, c, before)
    decreases |s|, 0
  {
    var s0, rest := s[0], s[1..];
    var ins := Insert(x, rest, before);
    var px: seq<T> := if Tied(x, c, before) then [x] else [];
    var p0: seq<T> := if Tied(s0, c, before) then [s0] else [];
    assert Insert(x, s, before) == [s0] + ins;
    assert [s0] + rest == s;
    TiedWithInsert(x, rest, c, before);
    TiedWithCons(s0, ins, c, before);
    TiedWithCons(s0, rest, c, before);
    NotBothTied(x, s0, c, before);
    assert p0 == [] || px == [];
    assert TiedWith(Insert(x, s, before), c, before) == p0 + (px + TiedWith(rest, c, before));
    assert TiedWith(s, c, before) == p0 + TiedWith(rest, c, before);
    SwapEmpty(p0, px, TiedWith(rest, c, before));
  }

  lemma SwapEmpty<T>(a: seq<T>, b: seq<T>, t: seq<T>)
    requires a == [] || b == []
    ensures a + (b + t) == b + (a + t)
  {
    if a == [] {
      assert a + (b + t) == b + t;
      assert a + t == t;
    } else {
      assert b + (a + t) == a + t;
      assert b + t == t;
    }
  }

  /** Stability: the elements tied with any `c` keep their input order. */
  lemma {:induction false} SortByStable<T(!new)>(s: seq<T>, c: T, before: (T, T) -> bool)
    requires Transitive(before)
    ensures TiedWith(SortBy(s, before), c, before) == TiedWith(s, c, before)
  {
    if s != [] {
      SortByStable(s[1..], c, before);
      TiedWithInsert(s[0], SortBy(s[1..], before), c, before);
    }
  }

  /** `a` is `b` with some elements left out, the rest kept in order. */
  predicate IsSubsequence<T(==)>(a: seq<T>, b: seq<T>)
    decreases |b|
  {
    if b == [] then a == []
    else (a != [] && a[0] == b[0] && IsSubsequence(a[1..], b[1..])) || IsSubsequence(a, b[1..])
  }

  lemma {:induction false} SubsequenceRefl<T>(a: seq<T>)
    ensures IsSubsequence(a, a)
  {
    if a != [] {
      SubsequenceRefl(a[1..]);
    }
  }

  lemma {:induction false} SubsequenceMembers<T>(a: seq<T>, b: seq<T>)
    requires IsSubsequence(a, b)
    ensures multiset(a) <= multiset(b) && |a| <= |b|
    ensures forall x :: x in a ==> x in b
    decreases |b|
  {
    if b != [] {
      assert b == [b[0]] + b[1..];
      if a != [] && a[0] == b[0] && IsSubsequence(a[1..], b[1..]) {
        SubsequenceMembers(a[1..], b[1..]);
        assert a == [a[0]] + a[1..];
      } else {
        SubsequenceMembers(a, b[1..]);
      }
    }
  }

  lemma {:induction false} SubsequenceTransitive<T>(a: seq<T>, b: seq<T>, c: seq<T>)
    requires IsSubsequence(a, b) && IsSubsequence(b, c)
    ensures IsSubsequence(a, c)
    decreases |c|
  {
    if c != [] {
      if b != [] && b[0] == c[0] && IsSubsequence(b[1..], c[1..]) {
        if a != [] && a[0] == b[0] && IsSubsequence(a[1..], b[1..]) {
          SubsequenceTransitive(a[1..], b[1..], c[1..]);
        } else {
          SubsequenceTransitive(a, b[1..], c[1..]);
        }
      } else {
        SubsequenceTransitive(a, b, c[1..]);
      }
    }
  }

  /** Leaving elements out of an ordered sequence keeps it ordered. */
  lemma {:induction false} SubsequenceSorted<T>(a: seq<T>, b: seq<T>, before: (T, T) -> bool)
    requires IsSubsequence(a, b) && SortedBy(b, before)
    ensures SortedBy(a, before)
    decreases |b|
  {
    if b != [] {
      assert SortedBy(b[1..], before) by {
        forall i, j | 0 <= i < j < |b[1..]| ensures before(b[1..][i], b[1..][j]) {
          assert b[1..][i] == b[i + 1] && b[1..][j] == b[j + 1];
        }
      }
      if a != [] && a[0] == b[0] && IsSubsequence(a[1..], b[1..]) {
        SubsequenceSorted(a[1..], b[1..], before);
        SubsequenceMembers(a[1..], b[1..]);
        forall i, j | 0 <= i < j < |a| ensures before(a[i], a[j]) {
          if i == 0 {
            assert a[j] == a[1..][j - 1];
            assert a[j] in b[1..];
            var k :| 0 <= k < |b[1..]| && b[1..][k] == a[j];
            assert b[k + 1] == a[j];
          } else {
            assert a[i] == a[1..][i - 1] && a[j] == a[1..][j - 1];
          }
        }
      } else {
        SubsequenceSorted(a, b[1..], before);
      }
    }
  }
}
