/** Ranked rows: the order shared by dense, sparse, reranked and fused results
    (score descending by `total_cmp`, then row id ascending). */
module Ranking {
  import opened Wrappers
  import opened Floats

  /** `info` is what a fused row carries besides its id and score. */
  datatype Row<+T> = Row(id: u64, score: F32, info: T)

  datatype NoInfo = NoInfo

  type ScoredRow = Row<NoInfo>

  predicate Before<T>(a: Row<T>, b: Row<T>) {
    TotalKey(a.score) > TotalKey(b.score) || (TotalKey(a.score) == TotalKey(b.score) && a.id < b.id)
  }

  /** The comparison-sort postcondition: no row is strictly before an earlier one. */
  ghost predicate Sorted<T>(s: seq<Row<T>>) {
    forall i, j :: 0 <= i < j < |s| ==> !Before(s[j], s[i])
  }

  ghost predicate Ranked<T>(s: seq<Row<T>>) {
    forall i, j :: 0 <= i < j < |s| ==> Before(s[i], s[j])
  }

  /** Rows the order can tell apart; always so for scored rows and for rows with distinct ids. */
  ghost predicate Separated<T>(s: set<Row<T>>) {
    forall a, b :: a in s && b in s && a.id == b.id && a.score == b.score ==> a == b
  }

  ghost predicate Lists<T>(r: seq<Row<T>>, s: set<Row<T>>) {
    (forall x :: x in r ==> x in s) && (forall x :: x in s ==> x in r)
  }

  lemma ScoredRowsSeparated(s: set<ScoredRow>)
    ensures Separated(s)
  {
    forall a, b | a in s && b in s && a.id == b.id && a.score == b.score ensures a == b {
      assert a.info == NoInfo && b.info == NoInfo;
    }
  }

  lemma FirstExists<T>(s: set<Row<T>>) returns (m: Row<T>)
    requires s != {} && Separated(s)
    ensures m in s && forall x :: x in s && x != m ==> Before(m, x)
  {
    m :| m in s;
    if s != {m} {
      var rest := s - {m};
      var m' := FirstExists(rest);
      assert TotalKey(m.score) == TotalKey(m'.score) ==> m.score == m'.score;
      assert forall x :: x in s ==> x == m || x in rest;
      if Before(m', m) {
        m := m';
      }
    }
  }

  ghost predicate IsRankingOf<T>(r: seq<Row<T>>, s: set<Row<T>>) {
    Ranked(r) && Lists(r, s) && |r| == |s|
  }

  lemma {:induction false} RankingExists<T>(s: set<Row<T>>) returns (r: seq<Row<T>>)
    requires Separated(s)
    ensures IsRankingOf(r, s)
  {
    if s == {} {
      r := [];
    } else {
      var m := FirstExists(s);
      var q := RankingExists(s - {m});
      r := [m] + q;
      assert forall i :: 0 <= i < |q| ==> q[i] in q;
    }
  }

  /** The one ranked listing of a finite set of rows. */
  ghost function RankingOf<T(!new)>(s: set<Row<T>>): (r: seq<Row<T>>)
    requires Separated(s)
    ensures IsRankingOf(r, s)
  {
    assert exists r :: IsRankingOf(r, s) by { var r := RankingExists(s); }
    var r :| IsRankingOf(r, s);
    r
  }

  lemma HeadsAgree<T>(r: seq<Row<T>>, q: seq<Row<T>>, s: set<Row<T>>)
    requires Ranked(r) && Lists(r, s) && Ranked(q) && Lists(q, s) && r != []
    ensures q != [] && r[0] == q[0]
  {
    assert r[0] in r;
    assert r[0] in q;
    var j :| 0 <= j < |q| && q[j] == r[0];
    assert q[0] in q;
    assert q[0] in r;
    var i :| 0 <= i < |r| && r[i] == q[0];
    assert (i == 0 || Before(r[0], r[i])) && (j == 0 || Before(q[0], q[j]));
  }

  lemma TailLists<T>(r: seq<Row<T>>, s: set<Row<T>>)
    requires Ranked(r) && Lists(r, s) && r != []
    ensures Ranked(r[1..]) && Lists(r[1..], s - {r[0]})
  {
    forall x | x in r[1..] ensures x in s - {r[0]} {
      var k :| 1 <= k < |r| && r[k] == x;
      assert Before(r[0], r[k]) && r[k] in r;
    }
    forall x | x in s - {r[0]} ensures x in r[1..] {
      assert x in r;
      var k :| 0 <= k < |r| && r[k] == x;
      assert r[1..][k - 1] == x;
    }
  }

  /** Two ranked listings of the same rows are equal, so `RankingOf` is the only one. */
  lemma {:induction false} RankedUnique<T>(r: seq<Row<T>>, q: seq<Row<T>>, s: set<Row<T>>)
    requires Ranked(r) && Lists(r, s) && Ranked(q) && Lists(q, s)
    ensures r == q
  {
    assert q != [] ==> q[0] in q;
    if r == [] {
    } else {
      HeadsAgree(r, q, s);
      TailLists(r, s);
      TailLists(q, s);
      RankedUnique(r[1..], q[1..], s - {r[0]});
      assert r == [r[0]] + r[1..] && q == [q[0]] + q[1..];
    }
  }

  /** A sorted list without repeated rows is ranked. */
  lemma SortedDistinctIsRanked<T>(s: seq<Row<T>>)
    requires Sorted(s) && Separated(set x | x in s)
    requires forall i, j :: 0 <= i < j < |s| ==> s[i] != s[j]
    ensures Ranked(s)
  {
    forall i, j | 0 <= i < j < |s| ensures Before(s[i], s[j]) {
      assert s[i] in s && s[j] in s;
      assert !Before(s[j], s[i]);
    }
  }

  /** Adjacent pairs decide sortedness. */
  lemma {:induction false} AdjacentSorted<T>(s: seq<Row<T>>)
    requires forall i :: 1 <= i < |s| ==> !Before(s[i], s[i - 1])
    ensures Sorted(s)
  {
    if s != [] {
      var k := |s| - 1;
      AdjacentSorted(s[..k]);
      forall i | 0 <= i < k ensures !Before(s[k], s[i]) {
        assert i < k - 1 ==> !Before(s[..k][k - 1], s[..k][i]);
      }
      forall i, j | 0 <= i < j < |s| ensures !Before(s[j], s[i]) {
        assert j < k ==> !Before(s[..k][j], s[..k][i]);
      }
    }
  }

  lemma InsertKeepsSorted<T>(r: seq<Row<T>>, k: nat, x: Row<T>)
    requires Sorted(r) && k <= |r|
    requires forall i :: 0 <= i < k ==> !Before(x, r[i])
    requires k < |r| ==> Before(x, r[k])
    ensures Sorted(r[..k] + [x] + r[k..])
  {
    var t := r[..k] + [x] + r[k..];
    forall i, j | 0 <= i < j < |t| ensures !Before(t[j], t[i]) {
      assert i < k ==> t[i] == r[i];
      assert i > k ==> t[i] == r[i - 1];
      assert j < k ==> t[j] == r[j];
      assert j > k ==> t[j] == r[j - 1];
      assert i == k && j > k + 1 ==> !Before(r[j - 1], r[k]);
    }
  }

  method InsertRow<T>(r: seq<Row<T>>, x: Row<T>) returns (q: seq<Row<T>>)
    requires Sorted(r)
    ensures Sorted(q) && multiset(q) == multiset(r) + multiset{x}
  {
    var k := 0;
    while k < |r| && !Before(x, r[k])
      invariant k <= |r|
      invariant forall i :: 0 <= i < k ==> !Before(x, r[i])
    {
      k := k + 1;
    }
    InsertKeepsSorted(r, k, x);
    assert r == r[..k] + r[k..];
    q := r[..k] + [x] + r[k..];
  }

  /** `sort_by` with the row order, as an insertion sort. */
  method SortRows<T>(rows: seq<Row<T>>) returns (r: seq<Row<T>>)
    ensures Sorted(r) && multiset(r) == multiset(rows)
  {
    r := [];
    for n := 0 to |rows|
      invariant Sorted(r) && multiset(r) == multiset(rows[..n])
    {
      r := InsertRow(r, rows[n]);
      assert rows[..n + 1] == rows[..n] + [rows[n]];
    }
    assert rows[..|rows|] == rows;
  }

  lemma DistinctMultiplicity<T>(s: seq<T>, x: T)
    requires forall i, j :: 0 <= i < j < |s| ==> s[i] != s[j]
    ensures multiset(s)[x] <= 1
  {
    if x in s {
      var k :| 0 <= k < |s| && s[k] == x;
      assert s == s[..k] + [x] + s[k + 1..];
      assert x !in s[..k] && x !in s[k + 1..];
    }
  }

  lemma RepeatedMultiplicity<T>(s: seq<T>, i: nat, j: nat)
    requires i < j < |s| && s[i] == s[j]
    ensures multiset(s)[s[i]] >= 2
  {
    assert s == s[..i + 1] + s[i + 1..];
    assert s[..i + 1][i] == s[i] && s[i + 1..][j - i - 1] == s[i];
  }

  lemma PermutationKeepsDistinct<T>(s: seq<T>, t: seq<T>)
    requires forall i, j :: 0 <= i < j < |s| ==> s[i] != s[j]
    requires multiset(s) == multiset(t)
    ensures forall i, j :: 0 <= i < j < |t| ==> t[i] != t[j]
  {
    forall i, j | 0 <= i < j < |t| ensures t[i] != t[j] {
      DistinctMultiplicity(s, t[i]);
      if t[i] == t[j] {
        RepeatedMultiplicity(t, i, j);
        assert false;
      }
    }
  }

  function Take<T>(s: seq<T>, k: nat): seq<T> {
    if k < |s| then s[..k] else s
  }

  lemma TopBeforeRest<T>(all: seq<Row<T>>, k: nat, x: Row<T>, y: Row<T>)
    requires Ranked(all) && x in Take(all, k) && y in all && y !in Take(all, k)
    ensures Before(x, y)
  {
    var i :| 0 <= i < |Take(all, k)| && Take(all, k)[i] == x;
    var j :| 0 <= j < |all| && all[j] == y;
    assert forall m :: 0 <= m < |all| && m < k ==> Take(all, k)[m] == all[m] && all[m] in Take(all, k);
  }

  /** What cutting a ranking at `k` keeps: as many rows as possible, each before every row cut. */
  lemma TopRows<T>(all: seq<Row<T>>, s: set<Row<T>>, k: nat)
    requires Ranked(all) && Lists(all, s) && |all| == |s|
    ensures Ranked(Take(all, k)) && |Take(all, k)| == if k < |s| then k else |s|
    ensures forall x :: x in Take(all, k) ==> x in s
    ensures forall x, y :: x in Take(all, k) && y in s && y !in Take(all, k) ==> Before(x, y)
  {
    var top := Take(all, k);
    forall x | x in top ensures x in s {
      assert x in all;
    }
    forall x, y | x in top && y in s && y !in top ensures Before(x, y) {
      TopBeforeRest(all, k, x, y);
    }
  }
}
