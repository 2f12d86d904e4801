/** `apply_filters`: restrict a normalised table to a set of projects and an
    inclusive range of calendar dates. */
module Filters {
  import opened Records
  import opened Seqs
  import Normalise

  /** Whether `apply_filters` keeps a row: its project is selected and its
      date lies in [start, end]. */
  predicate Selected(m: Movement, projects: set<string>, start: int, end: int)
  {
    m.project in projects && start <= DateOf(m.time) <= end
  }

  function Mask(projects: set<string>, start: int, end: int): Movement -> bool
  {
    m => Selected(m, projects, start, end)
  }

  function ApplyFilters(rows: seq<Movement>, projects: set<string>, start: int, end: int): (r: seq<Movement>)
    ensures IsSubsequence(r, rows)
    ensures forall i :: 0 <= i < |r| ==> && r[i] in rows
                                         && r[i].project in projects
                                         && start <= DateOf(r[i].time) <= end
    ensures forall i :: 0 <= i < |rows| && rows[i].project in projects && start <= DateOf(rows[i].time) <= end
                        ==> rows[i] in r
    ensures forall m :: multiset(r)[m] == if Selected(m, projects, start, end) then multiset(rows)[m] else 0
    ensures |projects| == 0 ==> r == []
    ensures start > end ==> r == []
  {
    var r := Keep(rows, Mask(projects, start, end));
    KeepCounts(rows, Mask(projects, start, end));
    assert |projects| == 0 || start > end ==> r == [] by {
      if |projects| == 0 || start > end {
        KeepNone(rows, Mask(projects, start, end));
      }
    }
    r
  }

  /** Filtering twice is filtering once by the intersection of the selections. */
  lemma FilterComposes(rows: seq<Movement>, p1: set<string>, s1: int, e1: int, p2: set<string>, s2: int, e2: int)
    ensures ApplyFilters(ApplyFilters(rows, p1, s1, e1), p2, s2, e2)
         == ApplyFilters(rows, p1 * p2, if s1 < s2 then s2 else s1, if e1 < e2 then e1 else e2)
  {
    var m1 := Mask(p1, s1, e1);
    var m2 := Mask(p2, s2, e2);
    var m := Mask(p1 * p2, if s1 < s2 then s2 else s1, if e1 < e2 then e1 else e2);
    KeepKeep(rows, m1, m2);
    KeepSame(rows, Both(m1, m2), m);
  }

  /** `apply_filters` is idempotent. */
  lemma FilterIdempotent(rows: seq<Movement>, projects: set<string>, start: int, end: int)
    ensures ApplyFilters(ApplyFilters(rows, projects, start, end), projects, start, end)
         == ApplyFilters(rows, projects, start, end)
  {
    KeepIdempotent(rows, Mask(projects, start, end));
  }

  /** Filtering a table sorted by timestamp leaves it sorted. */
  lemma FilterKeepsOrder(rows: seq<Movement>, projects: set<string>, start: int, end: int)
    requires Normalise.SortedByTime(rows)
    ensures Normalise.SortedByTime(ApplyFilters(rows, projects, start, end))
  {
    KeepKeepsOrder(rows, Mask(projects, start, end));
  }

  lemma {:induction false} KeepKeepsOrder(rows: seq<Movement>, p: Movement -> bool)
    requires Normalise.SortedByTime(rows)
    ensures Normalise.SortedByTime(Keep(rows, p))
    decreases |rows|
  {
    if |rows| > 0 {
      KeepKeepsOrder(rows[1..], p);
      if p(rows[0]) {
        EarliestFirst(rows, p);
        SortedCons(rows[0], Keep(rows[1..], p));
      }
    }
  }

  /** The first row of a sorted table is no later than any row kept after it. */
  lemma EarliestFirst(rows: seq<Movement>, p: Movement -> bool)
    requires |rows| > 0
    requires Normalise.SortedByTime(rows)
    ensures forall m :: m in Keep(rows[1..], p) ==> rows[0].time <= m.time
  {
    forall m | m in Keep(rows[1..], p)
      ensures rows[0].time <= m.time
    {
      var j :| 0 <= j < |rows[1..]| && rows[1..][j] == m;
      assert rows[j + 1] == m;
    }
  }

  lemma SortedCons(m: Movement, tail: seq<Movement>)
    requires Normalise.SortedByTime(tail)
    requires forall x :: x in tail ==> m.time <= x.time
    ensures Normalise.SortedByTime([m] + tail)
  {
    var r := [m] + tail;
    forall a, b | 0 <= a < b < |r|
      ensures r[a].time <= r[b].time
    {
      assert r[b] == tail[b - 1];
      if a > 0 {
        assert r[a] == tail[a - 1];
      }
    }
  }
}
