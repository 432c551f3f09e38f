/**
 * The stable sort of `Array.prototype.sort` (stable since ES2019) for a comparator of the form
 * `(a, b) => rank(a) - rank(b)`. A descending sort by a key `k` is the ascending sort by `-k`.
 */
module Sorting {

  /** `s` is ordered by non-decreasing rank. */
  predicate SortedBy<T>(s: seq<T>, rank: T -> int) {
    forall i, j | 0 <= i < j < |s| :: rank(s[i]) <= rank(s[j])
  }

  /** The elements of `s` whose rank is `k`, in their order in `s`. */
  function Ties<T>(s: seq<T>, rank: T -> int, k: int): seq<T> {
    if |s| == 0 then []
    else (if rank(s[0]) == k then [s[0]] else []) + Ties(s[1..], rank, k)
  }

  /** Every element of `s` has rank at least `lo`. */
  predicate RankAtLeast<T>(s: seq<T>, rank: T -> int, lo: int) {
    forall i | 0 <= i < |s| :: lo <= rank(s[i])
  }

  /** Places `x` in front of the first element whose rank is at least its own. */
  function Insert<T>(x: T, s: seq<T>, rank: T -> int): (r: seq<T>)
    ensures |r| == |s| + 1
    ensures multiset(r) == multiset(s) + multiset{x}
  {
    if |s| == 0 || rank(x) <= rank(s[0]) then [x] + s
    else
      assert s == [s[0]] + s[1..];
      [s[0]] + Insert(x, s[1..], rank)
  }

  /** A lower bound on the ranks of `s` and of `x` bounds the ranks of the insertion. */
  lemma {:induction false} InsertAtLeast<T>(x: T, s: seq<T>, rank: T -> int, lo: int)
    requires RankAtLeast(s, rank, lo) && lo <= rank(x)
    ensures RankAtLeast(Insert(x, s, rank), rank, lo)
    decreases |s|
  {
    if |s| > 0 && rank(x) > rank(s[0]) {
      InsertAtLeast(x, s[1..], rank, lo);
      var t := Insert(x, s[1..], rank);
      assert forall i | 1 <= i < |t| + 1 :: ([s[0]] + t)[i] == t[i - 1];
    }
  }

  /** Insertion into a sorted sequence keeps it sorted. */
  lemma {:induction false} InsertSorted<T>(x: T, s: seq<T>, rank: T -> int)
    requires SortedBy(s, rank)
    ensures SortedBy(Insert(x, s, rank), rank)
    decreases |s|
  {
    if |s| == 0 || rank(x) <= rank(s[0]) {
      var r := [x] + s;
      assert forall i | 1 <= i < |r| :: r[i] == s[i - 1];
    } else {
      InsertSorted(x, s[1..], rank);
      InsertAtLeast(x, s[1..], rank, rank(s[0]));
      var t := Insert(x, s[1..], rank);
      var r := [s[0]] + t;
      assert forall i | 1 <= i < |r| :: r[i] == t[i - 1];
    }
  }

  /** Stable ascending sort by `rank`. */
  function SortByRank<T>(s: seq<T>, rank: T -> int): (r: seq<T>)
    ensures |r| == |s|
    ensures SortedBy(r, rank)
    ensures multiset(r) == multiset(s)
  {
    if |s| == 0 then []
    else
      assert s == [s[0]] + s[1..];
      InsertSorted(s[0], SortByRank(s[1..], rank), rank);
      Insert(s[0], SortByRank(s[1..], rank), rank)
  }

  lemma {:induction false} TiesOfInsert<T>(x: T, s: seq<T>, rank: T -> int, k: int)
    ensures Ties(Insert(x, s, rank), rank, k) == (if rank(x) == k then [x] else []) + Ties(s, rank, k)
    decreases |s|
  {
    if |s| == 0 || rank(x) <= rank(s[0]) {
      TiesCons(x, s, rank, k);
    } else {
      TiesOfInsert(x, s[1..], rank, k);
      var t := Insert(x, s[1..], rank);
      TiesCons(s[0], t, rank, k);
      TiesCons(s[0], s[1..], rank, k);
      assert [s[0]] + s[1..] == s;
      if rank(x) == k {
        assert Ties(t, rank, k) == [x] + Ties(s[1..], rank, k);
      } else {
        assert Ties(t, rank, k) == Ties(s[1..], rank, k);
      }
    }
  }

  lemma TiesCons<T>(y: T, t: seq<T>, rank: T -> int, k: int)
    ensures Ties([y] + t, rank, k) == (if rank(y) == k then [y] else []) + Ties(t, rank, k)
  {
    assert ([y] + t)[1..] == t;
  }

  /** Stability: the sort keeps the relative order of elements of equal rank. */
  lemma {:induction false} SortIsStable<T>(s: seq<T>, rank: T -> int, k: int)
    ensures Ties(SortByRank(s, rank), rank, k) == Ties(s, rank, k)
    decreases |s|
  {
    if |s| > 0 {
      SortIsStable(s[1..], rank, k);
      TiesOfInsert(s[0], SortByRank(s[1..], rank), rank, k);
    }
  }

  /** A sequence already in order is returned unchanged. */
  lemma {:induction false} SortSorted<T>(s: seq<T>, rank: T -> int)
    requires SortedBy(s, rank)
    ensures SortByRank(s, rank) == s
    decreases |s|
  {
    if |s| > 0 {
      assert SortedBy(s[1..], rank);
      SortSorted(s[1..], rank);
      assert s == [s[0]] + s[1..];
    }
  }
}
