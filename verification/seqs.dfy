/** Order-preserving selection, a stable sort by a real-valued key, and sums —
    the sequence operations the table transformations are built from. */
module Seqs {

  /** `a` is `b` with some elements removed, the rest kept in order. */
  ghost predicate IsSubsequence<T>(a: seq<T>, b: seq<T>)
    decreases |b|
  {
    || |a| == 0
    || (&& |b| > 0
        && (|| (a[0] == b[0] && IsSubsequence(a[1..], b[1..]))
            || IsSubsequence(a, b[1..])))
  }

  /** A boolean mask applied to a table: the elements satisfying `p`, in order. */
  function Keep<T>(s: seq<T>, p: T -> bool): (r: seq<T>)
    ensures |r| <= |s|
    ensures forall i :: 0 <= i < |r| ==> r[i] in s && p(r[i])
    ensures forall i :: 0 <= i < |s| && p(s[i]) ==> s[i] in r
    ensures IsSubsequence(r, s)
  {
    if |s| == 0 then []
    else if p(s[0]) then [s[0]] + Keep(s[1..], p)
    else Keep(s[1..], p)
  }

  /** `Keep` keeps every copy of an element the predicate accepts and none of
      one it rejects. */
  lemma {:induction false} KeepCounts<T(!new)>(s: seq<T>, p: T -> bool)
    ensures forall x :: multiset(Keep(s, p))[x] == if p(x) then multiset(s)[x] else 0
  {
    if |s| > 0 {
      KeepCounts(s[1..], p);
      assert s == [s[0]] + s[1..];
    }
  }

  lemma {:induction false} KeepAppend<T>(a: seq<T>, b: seq<T>, p: T -> bool)
    ensures Keep(a + b, p) == Keep(a, p) + Keep(b, p)
    decreases |a|
  {
    if |a| > 0 {
      assert (a + b)[1..] == a[1..] + b;
      KeepAppend(a[1..], b, p);
    } else {
      assert a + b == b;
    }
  }

  /** Two masks that agree on every element of `s` select the same rows. */
  lemma {:induction false} KeepSame<T>(s: seq<T>, p: T -> bool, q: T -> bool)
    requires forall x :: x in s ==> p(x) == q(x)
    ensures Keep(s, p) == Keep(s, q)
    decreases |s|
  {
    if |s| > 0 {
      KeepSame(s[1..], p, q);
    }
  }

  /** Applying the same mask twice selects nothing more and nothing less. */
  lemma {:induction false} KeepIdempotent<T>(s: seq<T>, p: T -> bool)
    ensures Keep(Keep(s, p), p) == Keep(s, p)
    decreases |s|
  {
    if |s| > 0 {
      KeepIdempotent(s[1..], p);
    }
  }

  /** The mask selecting what both `p` and `q` select. */
  function Both<T>(p: T -> bool, q: T -> bool): T -> bool
  {
    x => p(x) && q(x)
  }

  /** Masking twice is masking once with both masks. */
  lemma {:induction false} KeepKeep<T>(s: seq<T>, p: T -> bool, q: T -> bool)
    ensures Keep(Keep(s, p), q) == Keep(s, Both(p, q))
    decreases |s|
  {
    if |s| > 0 {
      KeepKeep(s[1..], p, q);
    }
  }

  /** A mask that nothing in `s` satisfies selects nothing. */
  lemma {:induction false} KeepNone<T>(s: seq<T>, p: T -> bool)
    requires forall x :: x in s ==> !p(x)
    ensures Keep(s, p) == []
    decreases |s|
  {
    if |s| > 0 {
      KeepNone(s[1..], p);
    }
  }

  /** A mask that everything in `s` satisfies keeps `s` whole. */
  lemma {:induction false} KeepAll<T>(s: seq<T>, p: T -> bool)
    requires forall x :: x in s ==> p(x)
    ensures Keep(s, p) == s
    decreases |s|
  {
    if |s| > 0 {
      KeepAll(s[1..], p);
      assert s == [s[0]] + s[1..];
    }
  }

  /** The mask selecting what either `p` or `q` selects. */
  function Either<T>(p: T -> bool, q: T -> bool): T -> bool
  {
    x => p(x) || q(x)
  }

  /** Selecting by either of two exclusive masks selects as many rows as the two masks do apart. */
  lemma {:induction false} KeepDisjointLength<T>(s: seq<T>, p: T -> bool, q: T -> bool)
    requires forall x :: x in s ==> !(p(x) && q(x))
    ensures |Keep(s, Either(p, q))| == |Keep(s, p)| + |Keep(s, q)|
    decreases |s|
  {
    if |s| > 0 {
      KeepDisjointLength(s[1..], p, q);
    }
  }

  /** The same, for the sum of any weight over the selected rows. */
  lemma {:induction false} KeepDisjointSum<T>(s: seq<T>, p: T -> bool, q: T -> bool, w: T -> real)
    requires forall x :: x in s ==> !(p(x) && q(x))
    ensures SumBy(Keep(s, Either(p, q)), w) == SumBy(Keep(s, p), w) + SumBy(Keep(s, q), w)
    decreases |s|
  {
    if |s| > 0 {
      KeepDisjointSum(s[1..], p, q, w);
      var rest := Keep(s[1..], Either(p, q));
      assert ([s[0]] + rest)[1..] == rest;
      assert ([s[0]] + Keep(s[1..], p))[1..] == Keep(s[1..], p);
      assert ([s[0]] + Keep(s[1..], q))[1..] == Keep(s[1..], q);
    }
  }

  /** The kept and the dropped rows together account for every row. */
  lemma {:induction false} KeepPartition<T>(s: seq<T>, p: T -> bool)
    ensures |Keep(s, p)| + |Keep(s, x => !p(x))| == |s|
    decreases |s|
  {
    if |s| > 0 {
      KeepPartition(s[1..], p);
    }
  }

  /** Non-decreasing by `key`. */
  ghost predicate SortedBy<T>(s: seq<T>, key: T -> real)
  {
    forall i, j :: 0 <= i < j < |s| ==> key(s[i]) <= key(s[j])
  }

  /** Inserts `x` before the first element whose key is not smaller. */
  function InsertBy<T>(x: T, s: seq<T>, key: T -> real): (r: seq<T>)
    requires SortedBy(s, key)
    ensures SortedBy(r, key)
    ensures multiset(r) == multiset(s) + multiset{x}
    ensures |r| == |s| + 1
    ensures forall i :: 0 <= i < |r| ==> r[i] == x || r[i] in s
    decreases |s|
  {
    if |s| == 0 || key(x) <= key(s[0]) then
      SortedPrepend(x, s, key);
      [x] + s
    else
      var tail := InsertBy(x, s[1..], key);
      HeadBelowTail(x, s, tail, key);
      SortedPrepend(s[0], tail, key);
      assert s == [s[0]] + s[1..];
      [s[0]] + tail
  }

  /** Everything the insertion into the rest of a sorted `s` yields lies above `s[0]`. */
  lemma HeadBelowTail<T>(x: T, s: seq<T>, tail: seq<T>, key: T -> real)
    requires SortedBy(s, key) && |s| > 0 && key(s[0]) < key(x)
    requires forall i :: 0 <= i < |tail| ==> tail[i] == x || tail[i] in s[1..]
    ensures forall i :: 0 <= i < |tail| ==> key(s[0]) <= key(tail[i])
  {
    forall i | 0 <= i < |tail|
      ensures key(s[0]) <= key(tail[i])
    {
      if tail[i] != x {
        var k :| 0 <= k < |s[1..]| && s[1..][k] == tail[i];
        assert s[k + 1] == tail[i];
      }
    }
  }

  lemma SortedPrepend<T>(a: T, t: seq<T>, key: T -> real)
    requires SortedBy(t, key)
    requires forall i :: 0 <= i < |t| ==> key(a) <= key(t[i])
    ensures SortedBy([a] + t, key)
  {
    var r := [a] + t;
    forall i, j | 0 <= i < j < |r|
      ensures key(r[i]) <= key(r[j])
    {
      assert r[j] == t[j - 1];
      if i > 0 {
        assert r[i] == t[i - 1];
      }
    }
  }

  /** A stable insertion sort of `s` by `key`, ascending. */
  function SortBy<T>(s: seq<T>, key: T -> real): (r: seq<T>)
    ensures SortedBy(r, key)
    ensures multiset(r) == multiset(s)
    ensures |r| == |s|
    decreases |s|
  {
    if |s| == 0 then []
    else
      assert s == [s[0]] + s[1..];
      InsertBy(s[0], SortBy(s[1..], key), key)
  }

  /** The sum of `w` over the elements of `s`. */
  function SumBy<T>(s: seq<T>, w: T -> real): real
    decreases |s|
  {
    if |s| == 0 then 0.0 else w(s[0]) + SumBy(s[1..], w)
  }

  lemma {:induction false} SumByAppend<T>(a: seq<T>, b: seq<T>, w: T -> real)
    ensures SumBy(a + b, w) == SumBy(a, w) + SumBy(b, w)
    decreases |a|
  {
    if |a| > 0 {
      assert (a + b)[1..] == a[1..] + b;
      SumByAppend(a[1..], b, w);
    } else {
      assert a + b == b;
    }
  }

  /** Counting is summing ones. */
  lemma {:induction false} SumByOnes<T>(s: seq<T>)
    ensures SumBy(s, (x: T) => 1.0) == |s| as real
    decreases |s|
  {
    if |s| > 0 {
      SumByOnes(s[1..]);
    }
  }

  /** Sums of two weights that agree on `s` agree. */
  lemma {:induction false} SumBySame<T>(s: seq<T>, w: T -> real, v: T -> real)
    requires forall x :: x in s ==> w(x) == v(x)
    ensures SumBy(s, w) == SumBy(s, v)
    decreases |s|
  {
    if |s| > 0 {
      SumBySame(s[1..], w, v);
    }
  }

  /** Every element's weight lies in [lo, hi], so the sum lies in [n*lo, n*hi]. */
  lemma {:induction false} SumByBounds<T>(s: seq<T>, w: T -> real, lo: real, hi: real)
    requires forall x :: x in s ==> lo <= w(x) <= hi
    ensures (|s| as real) * lo <= SumBy(s, w) <= (|s| as real) * hi
    decreases |s|
  {
    if |s| > 0 {
      SumByBounds(s[1..], w, lo, hi);
      assert (|s| as real) * lo == lo + (|s[1..]| as real) * lo;
      assert (|s| as real) * hi == hi + (|s[1..]| as real) * hi;
    }
  }
}
