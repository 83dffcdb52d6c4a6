/** Stable sorting by a total preorder. This is the contract of Rust's
    `slice::sort_by_key` (a stable sort) used by the sync pass, and of the SQL
    `ORDER BY` clauses of the item store, where ties keep table order. The sort is
    an insertion sort written as a function; its three properties (sorted, a
    permutation, stable) are proved below. */
module Sorting {

  /** `le` is total and transitive: a "less than or equal" on keys. */
  ghost predicate TotalPreorder<T(!new)>(le: (T, T) -> bool) {
    && (forall a, b :: le(a, b) || le(b, a))
    && (forall a, b, c :: le(a, b) && le(b, c) ==> le(a, c))
  }

  predicate SortedBy<T>(s: seq<T>, le: (T, T) -> bool) {
    forall i, j :: 0 <= i < j < |s| ==> le(s[i], s[j])
  }

  /** `a` and `b` have the same key. */
  predicate Equiv<T>(a: T, b: T, le: (T, T) -> bool) {
    le(a, b) && le(b, a)
  }

  /** The elements of `s` whose key equals the key of `x`, in their order in `s`. */
  function Ties<T>(s: seq<T>, x: T, le: (T, T) -> bool): (r: seq<T>)
    ensures |r| <= |s|
  {
    if s == [] then []
    else (if Equiv(s[0], x, le) then [s[0]] else []) + Ties(s[1..], x, le)
  }

  /** Inserts `x` after every element whose key is at most its own. */
  function InsertBy<T>(s: seq<T>, x: T, le: (T, T) -> bool): (r: seq<T>)
    ensures |r| == |s| + 1
    ensures multiset(r) == multiset(s) + multiset{x}
  {
    if s == [] then [x]
    else if le(s[0], x) then
      assert s == [s[0]] + s[1..];
      [s[0]] + InsertBy(s[1..], x, le)
    else [x] + s
  }

  function SortBy<T>(s: seq<T>, le: (T, T) -> bool): (r: seq<T>)
    ensures |r| == |s|
    ensures multiset(r) == multiset(s)
  {
    if s == [] then []
    else
      assert s == s[..|s| - 1] + [s[|s| - 1]];
      InsertBy(SortBy(s[..|s| - 1], le), s[|s| - 1], le)
  }

  lemma {:induction false} InsertBySorted<T(!new)>(s: seq<T>, x: T, le: (T, T) -> bool)
    requires TotalPreorder(le) && SortedBy(s, le)
    ensures SortedBy(InsertBy(s, x, le), le)
  {
    if s != [] && le(s[0], x) {
      InsertBySorted(s[1..], x, le);
      var r := InsertBy(s, x, le);
      var t := InsertBy(s[1..], x, le);
      assert r == [s[0]] + t;
      forall j | 0 < j < |r| ensures le(r[0], r[j]) {
        assert r[j] in multiset(t);
        assert r[j] in multiset(s[1..]) + multiset{x};
        if r[j] != x {
          assert r[j] in s[1..];
          var k :| 0 <= k < |s[1..]| && s[1..][k] == r[j];
          assert s[k + 1] == r[j];
        }
      }
    }
  }

  /** The result of `SortBy` is sorted. */
  lemma {:induction false} SortBySorted<T(!new)>(s: seq<T>, le: (T, T) -> bool)
    requires TotalPreorder(le)
    ensures SortedBy(SortBy(s, le), le)
  {
    if s != [] {
      SortBySorted(s[..|s| - 1], le);
      InsertBySorted(SortBy(s[..|s| - 1], le), s[|s| - 1], le);
    }
  }

  lemma {:induction false} TiesAppend<T>(a: seq<T>, b: seq<T>, x: T, le: (T, T) -> bool)
    ensures Ties(a + b, x, le) == Ties(a, x, le) + Ties(b, x, le)
  {
    if a != [] {
      assert (a + b)[1..] == a[1..] + b;
      assert (a + b)[0] == a[0];
      TiesAppend(a[1..], b, x, le);
    } else {
      assert a + b == b;
    }
  }

  lemma {:induction false} TiesNone<T>(s: seq<T>, x: T, le: (T, T) -> bool)
    requires forall i :: 0 <= i < |s| ==> !Equiv(s[i], x, le)
    ensures Ties(s, x, le) == []
  {
    if s != [] {
      TiesNone(s[1..], x, le);
    }
  }

  lemma {:induction false} InsertByTies<T(!new)>(s: seq<T>, y: T, x: T, le: (T, T) -> bool)
    requires TotalPreorder(le) && SortedBy(s, le)
    ensures Ties(InsertBy(s, y, le), x, le) == Ties(s, x, le) + Ties([y], x, le)
  {
    if s == [] {
      assert Ties([y], x, le) == (if Equiv(y, x, le) then [y] else []) + Ties([], x, le);
    } else if le(s[0], y) {
      assert SortedBy(s[1..], le);
      InsertByTies(s[1..], y, x, le);
      TiesCons(s, InsertBy(s[1..], y, le), Ties([y], x, le), x, le);
    } else {
      TiesAppend([y], s, x, le);
      if Equiv(y, x, le) {
        TiesAboveNone(s, y, x, le);
      } else {
        assert Ties([y], x, le) == [] + Ties([], x, le);
      }
    }
  }

  /** Putting the head of `s` back in front of `t` adds the same ties to both
      sides of an equation between the ties of `t` and of the tail of `s`. */
  lemma TiesCons<T>(s: seq<T>, t: seq<T>, extra: seq<T>, x: T, le: (T, T) -> bool)
    requires s != [] && Ties(t, x, le) == Ties(s[1..], x, le) + extra
    ensures Ties([s[0]] + t, x, le) == Ties(s, x, le) + extra
  {
    TiesAppend([s[0]], t, x, le);
    TiesAppend([s[0]], s[1..], x, le);
    assert [s[0]] + s[1..] == s;
  }

  /** When `y` goes before a sorted `s`, nothing in `s` has the key of `y`. */
  lemma TiesAboveNone<T(!new)>(s: seq<T>, y: T, x: T, le: (T, T) -> bool)
    requires TotalPreorder(le) && SortedBy(s, le)
    requires s != [] && !le(s[0], y) && Equiv(y, x, le)
    ensures Ties(s, x, le) == []
  {
    forall i | 0 <= i < |s| ensures !Equiv(s[i], x, le) {
      assert le(s[0], s[i]) || i == 0;
    }
    TiesNone(s, x, le);
  }

  /** Stability: for every key, the elements with that key come out of `SortBy`
      in the order they went in. */
  lemma {:induction false} SortByStable<T(!new)>(s: seq<T>, x: T, le: (T, T) -> bool)
    requires TotalPreorder(le)
    ensures Ties(SortBy(s, le), x, le) == Ties(s, x, le)
  {
    if s != [] {
      var init, last := s[..|s| - 1], s[|s| - 1];
      SortByStable(init, x, le);
      SortBySorted(init, le);
      InsertByTies(SortBy(init, le), last, x, le);
      TiesAppend(init, [last], x, le);
      assert init + [last] == s;
    }
  }

  /** No element occurs twice. */
  predicate Distinct<T(==)>(s: seq<T>) {
    forall i, j :: 0 <= i < j < |s| ==> s[i] != s[j]
  }

  lemma {:induction false} DistinctCounts<T>(s: seq<T>)
    requires Distinct(s)
    ensures forall x :: multiset(s)[x] <= 1
  {
    if s != [] {
      DistinctCounts(s[1..]);
      assert s == [s[0]] + s[1..];
      assert s[0] !in s[1..];
    }
  }

  lemma RepeatCounts<T>(s: seq<T>, i: int, j: int)
    requires 0 <= i < j < |s| && s[i] == s[j]
    ensures multiset(s)[s[i]] >= 2
  {
    assert s == s[..i] + [s[i]] + s[i + 1..j] + [s[j]] + s[j + 1..];
  }

  /** A permutation of a sequence without repetitions has none either. */
  lemma DistinctPermutation<T>(a: seq<T>, b: seq<T>)
    requires multiset(a) == multiset(b) && Distinct(a)
    ensures Distinct(b)
  {
    DistinctCounts(a);
    forall i, j | 0 <= i < j < |b| ensures b[i] != b[j] {
      if b[i] == b[j] {
        RepeatCounts(b, i, j);
      }
    }
  }
}
