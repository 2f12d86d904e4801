/** Peak detection over a series of hourly bucket sums: numpy's
    linear-interpolation percentile and scipy's `find_peaks` with an inclusive
    `height` and `distance = 2`. */
module Peaks {
  import opened Seqs

  function RealKey(y: real): real { y }

  /** `np.percentile(v, p)` with the default linear method: the value at
      fractional rank (n-1)*p/100 of the ascending values, interpolated between
      its two neighbouring ranks. */
  function Percentile(v: seq<real>, p: nat): (r: real)
    requires |v| > 0 && p <= 100
    ensures exists i :: 0 <= i < |v| && v[i] <= r
    ensures exists j :: 0 <= j < |v| && r <= v[j]
  {
    var s := SortBy(v, RealKey);
    AscendingSorted(v);
    var r := Interpolate(s, p);
    var i, j :| 0 <= i < |s| && 0 <= j < |s| && s[i] <= r <= s[j];
    assert s[i] in multiset(v) by { assert s[i] in multiset(s); }
    assert s[j] in multiset(v) by { assert s[j] in multiset(s); }
    r
  }

  /** Non-decreasing, as the sorted copy of a series is. */
  ghost predicate Ascending(s: seq<real>)
  {
    forall i, j :: 0 <= i < j < |s| ==> s[i] <= s[j]
  }

  /** The value at fractional rank (n-1)*p/100 of the ascending values `s`,
      interpolated linearly between the two ranks around it. */
  function Interpolate(s: seq<real>, p: nat): (r: real)
    requires |s| > 0 && p <= 100 && Ascending(s)
    ensures exists i, j :: 0 <= i < |s| && 0 <= j < |s| && s[i] <= r <= s[j]
  {
    var n := |s|;
    var lo := Rank(n, p);
    if lo + 1 < n then
      var r := Lerp(s[lo], s[lo + 1], Fraction(n, p));
      assert s[lo] <= r <= s[lo + 1];
      r
    else s[lo]
  }

  /** The whole part of the fractional rank (n-1)*p/100. */
  function Rank(n: nat, p: nat): (lo: nat)
    requires n > 0 && p <= 100
    ensures lo < n
    ensures lo * 100 <= (n - 1) * p < (lo + 1) * 100
  {
    assert (n - 1) * p <= (n - 1) * 100 by { MulLeftMonotone(n - 1, p, 100); }
    (n - 1) * p / 100
  }

  /** The fractional part of the rank (n-1)*p/100. */
  function Fraction(n: nat, p: nat): (t: real)
    requires n > 0 && p <= 100
    ensures 0.0 <= t < 1.0
    ensures Rank(n, p) as real + t == ((n - 1) * p) as real / 100.0
  {
    ((n - 1) * p - Rank(n, p) * 100) as real / 100.0
  }

  lemma MulLeftMonotone(a: nat, b: nat, c: nat)
    requires b <= c
    ensures a * b <= a * c
  {
  }

  /** Linear interpolation from `a` (at t = 0) to `b` (at t = 1). */
  function Lerp(a: real, b: real, t: real): (r: real)
    requires a <= b && 0.0 <= t <= 1.0
    ensures a <= r <= b
  {
    var d := b - a;
    var e := d * t;
    ScaledBetween(d, t);
    a + e
  }

  lemma ScaledBetween(d: real, t: real)
    requires 0.0 <= d && 0.0 <= t <= 1.0
    ensures 0.0 <= d * t
    ensures d * t <= d
  {
    assert d * t - d * 1.0 == d * (t - 1.0);
    assert d * (t - 1.0) <= 0.0;
  }

  lemma RealMulMonotone(d: real, s: real, t: real)
    requires 0.0 <= d && s <= t
    ensures d * s <= d * t
  {
    assert d * t - d * s == d * (t - s);
  }

  /** The sorted copy of a series is ascending. */
  lemma AscendingSorted(v: seq<real>)
    ensures Ascending(SortBy(v, RealKey))
  {
    var s := SortBy(v, RealKey);
    assert SortedBy(s, RealKey);
    forall i, j | 0 <= i < j < |s|
      ensures s[i] <= s[j]
    {
      assert RealKey(s[i]) <= RealKey(s[j]);
    }
  }

  /** A higher percentile is never smaller: in particular the 25th percentile
      never exceeds the 75th. */
  lemma PercentileMonotone(v: seq<real>, p: nat, q: nat)
    requires |v| > 0 && p <= q <= 100
    ensures Percentile(v, p) <= Percentile(v, q)
  {
    AscendingSorted(v);
    InterpolateMonotone(SortBy(v, RealKey), p, q);
  }

  lemma InterpolateMonotone(s: seq<real>, p: nat, q: nat)
    requires |s| > 0 && p <= q <= 100 && Ascending(s)
    ensures Interpolate(s, p) <= Interpolate(s, q)
  {
    var n := |s|;
    var lp, lq := Rank(n, p), Rank(n, q);
    RankMonotone(n, p, q);
    if lp == lq {
      if lp + 1 < n {
        FractionMonotone(n, p, q);
        LerpMonotone(s[lp], s[lp + 1], Fraction(n, p), Fraction(n, q));
      }
    } else {
      assert Interpolate(s, p) <= s[lp + 1];
      assert s[lp + 1] <= s[lq];
    }
  }

  lemma RankMonotone(n: nat, p: nat, q: nat)
    requires n > 0 && p <= q <= 100
    ensures Rank(n, p) <= Rank(n, q)
  {
    MulLeftMonotone(n - 1, p, q);
  }

  lemma FractionMonotone(n: nat, p: nat, q: nat)
    requires n > 0 && p <= q <= 100 && Rank(n, p) == Rank(n, q)
    ensures Fraction(n, p) <= Fraction(n, q)
  {
    MulLeftMonotone(n - 1, p, q);
  }

  lemma LerpMonotone(a: real, b: real, t: real, u: real)
    requires a <= b && 0.0 <= t <= u <= 1.0
    ensures Lerp(a, b, t) <= Lerp(a, b, u)
  {
    var d := b - a;
    RealMulMonotone(d, t, u);
    var x, y := d * t, d * u;
    assert x <= y;
    assert Lerp(a, b, t) == a + x;
    assert Lerp(a, b, u) == a + y;
  }

  /** A series whose buckets all hold the same value has that value as every percentile. */
  lemma PercentileOfConstant(v: seq<real>, p: nat, c: real)
    requires |v| > 0 && p <= 100
    requires forall i :: 0 <= i < |v| ==> v[i] == c
    ensures Percentile(v, p) == c
  {
    var s := SortBy(v, RealKey);
    assert forall i :: 0 <= i < |s| ==> s[i] == c by {
      forall i | 0 <= i < |s|
        ensures s[i] == c
      {
        assert s[i] in multiset(v) by { assert s[i] in multiset(s); }
      }
    }
  }

  // ---------------------------------------------------------------------------
  // Local maxima (scipy's `_local_maxima_1d`)

  /** The first index of the maximal run of equal values containing `m`. */
  function RunStart(x: seq<real>, m: nat): (l: nat)
    requires m < |x|
    ensures l <= m
    ensures forall k :: l <= k <= m ==> x[k] == x[m]
    ensures l == 0 || x[l - 1] != x[m]
    decreases m
  {
    if m > 0 && x[m - 1] == x[m] then RunStart(x, m - 1) else m
  }

  /** The last index of the maximal run of equal values containing `m`. */
  function RunEnd(x: seq<real>, m: nat): (r: nat)
    requires m < |x|
    ensures m <= r < |x|
    ensures forall k :: m <= k <= r ==> x[k] == x[m]
    ensures r == |x| - 1 || x[r + 1] != x[m]
    decreases |x| - m
  {
    if m + 1 < |x| && x[m + 1] == x[m] then RunEnd(x, m + 1) else m
  }

  /** A run that starts at `l` and holds `x[m]` from `l` to `m` starts the run of `m`. */
  lemma {:induction false} RunStartIs(x: seq<real>, l: nat, m: nat)
    requires l <= m < |x|
    requires l == 0 || x[l - 1] != x[l]
    requires forall k :: l <= k <= m ==> x[k] == x[m]
    ensures RunStart(x, m) == l
    decreases m - l
  {
    if l < m {
      RunStartIs(x, l, m - 1);
    }
  }

  /** A run that holds `x[m]` from `m` to `r` and ends at `r` ends the run of `m`. */
  lemma {:induction false} RunEndIs(x: seq<real>, m: nat, r: nat)
    requires m <= r < |x|
    requires r == |x| - 1 || x[r + 1] != x[r]
    requires forall k :: m <= k <= r ==> x[k] == x[m]
    ensures RunEnd(x, m) == r
    decreases r - m
  {
    if m < r {
      RunEndIs(x, m + 1, r);
    }
  }

  /** The peak scipy reports: the middle (rounded down) of a maximal run of
      equal values that does not touch either end of the series and whose two
      neighbours are both strictly lower. */
  predicate IsPeak(x: seq<real>, m: nat)
  {
    m < |x| && RunIsPeak(x, m, RunStart(x, m), RunEnd(x, m))
  }

  /** The run [l, r] holds `m` and lies strictly inside the series, both its neighbours are
      lower than its value, and `m` is its middle. */
  predicate RunIsPeak(x: seq<real>, m: nat, l: nat, r: nat)
  {
    && 1 <= l <= m <= r && r + 1 < |x|
    && x[l - 1] < x[m] && x[r + 1] < x[m]
    && m == (l + r) / 2
  }

  /** The mirror image: the middle of a maximal run whose neighbours are both strictly higher. */
  predicate IsValley(x: seq<real>, m: nat)
  {
    m < |x| && RunIsValley(x, m, RunStart(x, m), RunEnd(x, m))
  }

  predicate RunIsValley(x: seq<real>, m: nat, l: nat, r: nat)
  {
    && 1 <= l <= m <= r && r + 1 < |x|
    && x[l - 1] > x[m] && x[r + 1] > x[m]
    && m == (l + r) / 2
  }

  /** Any two of the indices are at least `d` apart. */
  ghost predicate Separated(ps: seq<nat>, d: nat)
  {
    forall k, l :: 0 <= k < l < |ps| ==> ps[k] + d <= ps[l]
  }

  /** The inner loop of the scan: from `j` on, skip the values equal to `x[i]`,
      stopping at the last index at the latest. */
  function PlateauAhead(x: seq<real>, i: nat, j: nat): (a: nat)
    requires i < j < |x|
    ensures j <= a < |x|
    ensures forall k :: j <= k < a ==> x[k] == x[i]
    ensures a == |x| - 1 || x[a] != x[i]
    decreases |x| - j
  {
    if j < |x| - 1 && x[j] == x[i] then PlateauAhead(x, i, j + 1) else j
  }

  /** The scan of `_local_maxima_1d` from index `i` on: a value that rises from
      its left neighbour starts a candidate plateau; when the value after the
      plateau is lower, the plateau's midpoint is a peak and the scan resumes
      past it. */
  function MaximaFrom(x: seq<real>, i: nat): (ps: seq<nat>)
    requires 1 <= i
    ensures forall k :: 0 <= k < |ps| ==> i <= ps[k] && IsPeak(x, ps[k])
    ensures Separated(ps, 2)
    decreases |x| - i
  {
    if i + 1 >= |x| then []
    else if x[i - 1] < x[i] then
      var a := PlateauAhead(x, i, i + 1);
      if x[a] < x[i] then
        var tail := MaximaFrom(x, a + 1);
        PlateauPeak(x, i, a);
        var mid := (i + a - 1) / 2;
        SeparatedCons(mid, tail, 2);
        [mid] + tail
      else MaximaFrom(x, i + 1)
    else MaximaFrom(x, i + 1)
  }

  /** A plateau entered from below at `i` and left downwards at `a` has its
      midpoint as a peak. */
  lemma PlateauPeak(x: seq<real>, i: nat, a: nat)
    requires 1 <= i && i + 1 < |x| && x[i - 1] < x[i]
    requires a == PlateauAhead(x, i, i + 1) && x[a] < x[i]
    ensures i <= (i + a - 1) / 2 && (i + a - 1) / 2 + 2 <= a + 1
    ensures IsPeak(x, (i + a - 1) / 2)
  {
    var mid := (i + a - 1) / 2;
    assert forall k :: i <= k <= a - 1 ==> x[k] == x[i];
    RunStartIs(x, i, mid);
    RunEndIs(x, mid, a - 1);
  }

  lemma SeparatedCons(m: nat, ps: seq<nat>, d: nat)
    requires Separated(ps, d)
    requires forall k :: 0 <= k < |ps| ==> m + d <= ps[k]
    ensures Separated([m] + ps, d)
  {
    var r := [m] + ps;
    forall k, l | 0 <= k < l < |r|
      ensures r[k] + d <= r[l]
    {
      if k > 0 {
        assert r[k] == ps[k - 1] && r[l] == ps[l - 1];
      } else {
        assert r[l] == ps[l - 1];
      }
    }
  }

  /** At the start `l` of a peak's run, the plateau scan stops right after the run. */
  lemma PlateauAtPeak(x: seq<real>, m: nat)
    requires IsPeak(x, m)
    ensures var l, r := RunStart(x, m), RunEnd(x, m);
      && l + 1 < |x| && x[l - 1] < x[l]
      && PlateauAhead(x, l, l + 1) == r + 1 && x[r + 1] < x[l]
  {
    var l, r := RunStart(x, m), RunEnd(x, m);
    assert forall k :: l <= k <= r ==> x[k] == x[m];
  }

  /** A peak whose run starts after `i` also starts after the plateau beginning at `i`. */
  lemma PeakBeyondPlateau(x: seq<real>, i: nat, m: nat)
    requires 1 <= i && i + 1 < |x| && x[i - 1] < x[i]
    requires IsPeak(x, m) && RunStart(x, m) > i
    requires x[PlateauAhead(x, i, i + 1)] < x[i]
    ensures RunStart(x, m) > PlateauAhead(x, i, i + 1)
  {
    var l := RunStart(x, m);
    var a := PlateauAhead(x, i, i + 1);
    assert forall k :: i <= k < a ==> x[k] == x[i];
  }

  /** The scan from the start of a peak's run reports that peak first. */
  lemma ScanAtPeak(x: seq<real>, m: nat)
    requires IsPeak(x, m)
    ensures |MaximaFrom(x, RunStart(x, m))| > 0 && MaximaFrom(x, RunStart(x, m))[0] == m
  {
    var l, r := RunStart(x, m), RunEnd(x, m);
    PlateauAtPeak(x, m);
    ScanJump(x, l);
    assert (l + (r + 1) - 1) / 2 == m;
  }

  /** The scan past a plateau that is not a peak, or past a value that does not rise. */
  lemma ScanStep(x: seq<real>, i: nat)
    requires 1 <= i && i + 1 < |x|
    requires !(x[i - 1] < x[i] && x[PlateauAhead(x, i, i + 1)] < x[i])
    ensures MaximaFrom(x, i) == MaximaFrom(x, i + 1)
  {
  }

  /** The scan past a plateau that is a peak. */
  lemma ScanJump(x: seq<real>, i: nat)
    requires 1 <= i && i + 1 < |x|
    requires x[i - 1] < x[i] && x[PlateauAhead(x, i, i + 1)] < x[i]
    ensures var a := PlateauAhead(x, i, i + 1);
      MaximaFrom(x, i) == [(i + a - 1) / 2] + MaximaFrom(x, a + 1)
  {
  }

  /** Every peak whose run starts at `i` or later is found by the scan from `i`. */
  lemma {:induction false} MaximaFromComplete(x: seq<real>, i: nat, m: nat)
    requires 1 <= i
    requires IsPeak(x, m) && RunStart(x, m) >= i
    ensures m in MaximaFrom(x, i)
    decreases |x| - i
  {
    var l := RunStart(x, m);
    assert i + 1 < |x|;
    if l == i {
      ScanAtPeak(x, m);
    } else if x[i - 1] < x[i] && x[PlateauAhead(x, i, i + 1)] < x[i] {
      PeakBeyondPlateau(x, i, m);
      var a := PlateauAhead(x, i, i + 1);
      MaximaFromComplete(x, a + 1, m);
      ScanJump(x, i);
    } else {
      MaximaFromComplete(x, i + 1, m);
      ScanStep(x, i);
    }
  }

  /** `_local_maxima_1d`: the midpoints of all peaks, ascending. */
  function LocalMaxima(x: seq<real>): (ps: seq<nat>)
    ensures forall m :: m in ps <==> IsPeak(x, m)
    ensures Separated(ps, 2)
  {
    var ps := MaximaFrom(x, 1);
    assert forall m :: IsPeak(x, m) ==> m in ps by {
      forall m | IsPeak(x, m)
        ensures m in ps
      {
        MaximaFromComplete(x, 1, m);
      }
    }
    ps
  }

  // ---------------------------------------------------------------------------
  // `find_peaks(x, height=h, distance=2)`

  /** The minimum horizontal distance between peaks the analysis asks for. */
  const PeakDistance: nat := 2

  /** The inclusive `height` condition: the value at the peak is at least `h`. */
  function HighEnough(x: seq<real>, h: real): nat -> bool
  {
    (m: nat) => m < |x| && h <= x[m]
  }

  /** Dropping indices from a separated list keeps it separated. */
  lemma {:induction false} KeepSeparated(ps: seq<nat>, p: nat -> bool, d: nat)
    requires Separated(ps, d)
    ensures Separated(Keep(ps, p), d)
    decreases |ps|
  {
    if |ps| > 0 {
      var tail := ps[1..];
      assert Separated(tail, d) by {
        forall k, l | 0 <= k < l < |tail|
          ensures tail[k] + d <= tail[l]
        {
          assert tail[k] == ps[k + 1] && tail[l] == ps[l + 1];
        }
      }
      KeepSeparated(tail, p, d);
      if p(ps[0]) {
        var rest := Keep(tail, p);
        forall k | 0 <= k < |rest|
          ensures ps[0] + d <= rest[k]
        {
          var j :| 0 <= j < |tail| && tail[j] == rest[k];
          assert tail[j] == ps[j + 1];
        }
        SeparatedCons(ps[0], rest, d);
      }
    }
  }

  /** The inner loops of `_select_by_peak_distance` for the peak at position
      `j`: walking left from `k`, unmark every neighbour closer than `d`,
      stopping at the first one that is far enough. */
  function SuppressLeft(peaks: seq<nat>, keep: seq<bool>, j: nat, k: int, d: nat): (r: seq<bool>)
    requires |keep| == |peaks| && j < |peaks| && k < |peaks|
    ensures |r| == |keep|
    ensures forall i :: 0 <= i < |r| && r[i] ==> keep[i]
    decreases k + 1
  {
    if 0 <= k && peaks[j] - peaks[k] < d then SuppressLeft(peaks, keep[k := false], j, k - 1, d)
    else keep
  }

  /** The same walking right from `k`. */
  function SuppressRight(peaks: seq<nat>, keep: seq<bool>, j: nat, k: nat, d: nat): (r: seq<bool>)
    requires |keep| == |peaks| && j < |peaks|
    ensures |r| == |keep|
    ensures forall i :: 0 <= i < |r| && r[i] ==> keep[i]
    decreases |peaks| - k
  {
    if k < |peaks| && peaks[k] - peaks[j] < d then SuppressRight(peaks, keep[k := false], j, k + 1, d)
    else keep
  }

  /** The outer loop of `_select_by_peak_distance`: visits the positions of
      `order` from its last entry (the highest priority) down to entry 0, and
      lets each peak still kept unmark its close neighbours. */
  function DistanceLoop(peaks: seq<nat>, order: seq<nat>, d: nat, i: nat, keep: seq<bool>): (r: seq<bool>)
    requires |keep| == |peaks| && i <= |order|
    requires forall k :: 0 <= k < |order| ==> order[k] < |peaks|
    ensures |r| == |keep|
    ensures forall k :: 0 <= k < |r| && r[k] ==> keep[k]
    decreases i
  {
    if i == 0 then keep
    else
      var j := order[i - 1];
      if !keep[j] then DistanceLoop(peaks, order, d, i - 1, keep)
      else
        var left := SuppressLeft(peaks, keep, j, j as int - 1, d);
        var both := SuppressRight(peaks, left, j, j + 1, d);
        DistanceLoop(peaks, order, d, i - 1, both)
  }

  /** `_select_by_peak_distance(peaks, priority, distance)`: which of the
      ascending `peaks` survive, given the positions `order` in ascending
      priority (numpy's `argsort` of the priorities). */
  function SelectByDistance(peaks: seq<nat>, order: seq<nat>, d: nat): (keep: seq<bool>)
    requires forall k :: 0 <= k < |order| ==> order[k] < |peaks|
    ensures |keep| == |peaks|
  {
    DistanceLoop(peaks, order, d, |order|, seq(|peaks|, _ => true))
  }

  /** `peaks[keep]`: the entries whose flag is set, in order. */
  function Pick(peaks: seq<nat>, keep: seq<bool>): (r: seq<nat>)
    requires |keep| == |peaks|
    ensures |r| <= |peaks|
    ensures forall m :: m in r ==> m in peaks
    decreases |peaks|
  {
    if |peaks| == 0 then []
    else if keep[0] then [peaks[0]] + Pick(peaks[1..], keep[1..])
    else Pick(peaks[1..], keep[1..])
  }

  /** With no flag cleared, nothing is dropped. */
  lemma {:induction false} PickAll(peaks: seq<nat>, keep: seq<bool>)
    requires |keep| == |peaks|
    requires forall i :: 0 <= i < |keep| ==> keep[i]
    ensures Pick(peaks, keep) == peaks
    decreases |peaks|
  {
    if |peaks| > 0 {
      PickAll(peaks[1..], keep[1..]);
      assert peaks == [peaks[0]] + peaks[1..];
    }
  }

  /** On peaks already at least `d` apart, no inner walk unmarks anything. */
  lemma SuppressNothing(peaks: seq<nat>, keep: seq<bool>, j: nat, d: nat)
    requires |keep| == |peaks| && j < |peaks| && Separated(peaks, d)
    ensures SuppressLeft(peaks, keep, j, j as int - 1, d) == keep
    ensures SuppressRight(peaks, keep, j, j + 1, d) == keep
  {
    if 0 <= j - 1 {
      assert peaks[j - 1] + d <= peaks[j];
    }
    if j + 1 < |peaks| {
      assert peaks[j] + d <= peaks[j + 1];
    }
  }

  /** Whatever the priority order, the loop keeps every flag set when the peaks are `d` apart. */
  lemma {:induction false} DistanceLoopKeepsAll(peaks: seq<nat>, order: seq<nat>, d: nat, i: nat, keep: seq<bool>)
    requires |keep| == |peaks| && i <= |order|
    requires forall k :: 0 <= k < |order| ==> order[k] < |peaks|
    requires Separated(peaks, d)
    ensures DistanceLoop(peaks, order, d, i, keep) == keep
    decreases i
  {
    if i > 0 {
      var j := order[i - 1];
      if keep[j] {
        SuppressNothing(peaks, keep, j, d);
      }
      DistanceLoopKeepsAll(peaks, order, d, i - 1, keep);
    }
  }

  /** The `distance` condition removes nothing from peaks that already keep
      that distance, whichever way ties in priority were broken. */
  lemma DistanceRemovesNothing(peaks: seq<nat>, order: seq<nat>, d: nat)
    requires forall k :: 0 <= k < |order| ==> order[k] < |peaks|
    requires Separated(peaks, d)
    ensures Pick(peaks, SelectByDistance(peaks, order, d)) == peaks
  {
    DistanceLoopKeepsAll(peaks, order, d, |order|, seq(|peaks|, _ => true));
    PickAll(peaks, seq(|peaks|, _ => true));
  }

  /** The positions 0..n-1. */
  function Positions(n: nat): (r: seq<nat>)
    ensures |r| == n
    ensures forall k :: 0 <= k < n ==> r[k] == k
  {
    seq(n, k => k)
  }

  /** The priority order `argsort(x[peaks])`: positions by ascending peak height. */
  function PriorityOrder(x: seq<real>, peaks: seq<nat>): (order: seq<nat>)
    ensures |order| == |peaks|
    ensures forall k :: 0 <= k < |order| ==> order[k] < |peaks|
  {
    var height: nat -> real := (k: nat) => if k < |peaks| && peaks[k] < |x| then x[peaks[k]] else 0.0;
    var order := SortBy<nat>(Positions(|peaks|), height);
    assert forall k :: 0 <= k < |order| ==> order[k] < |peaks| by {
      forall k | 0 <= k < |order|
        ensures order[k] < |peaks|
      {
        assert order[k] in multiset(Positions(|peaks|)) by { assert order[k] in multiset(order); }
      }
    }
    order
  }

  /** `find_peaks(x, height=h, distance=2)`: the midpoints of the peaks of `x`
      whose value reaches `h`, ascending. */
  function FindPeaks(x: seq<real>, h: real): (ps: seq<nat>)
    ensures forall m: nat :: m in ps <==> IsPeak(x, m) && h <= x[m]
    ensures Separated(ps, PeakDistance)
  {
    var high := Keep(LocalMaxima(x), HighEnough(x, h));
    HighPeaks(x, h);
    var order := PriorityOrder(x, high);
    DistanceRemovesNothing(high, order, PeakDistance);
    Pick(high, SelectByDistance(high, order, PeakDistance))
  }

  /** The local maxima that pass the `height` condition are the peaks reaching it, still separated. */
  lemma HighPeaks(x: seq<real>, h: real)
    ensures forall m: nat :: m in Keep(LocalMaxima(x), HighEnough(x, h)) <==> IsPeak(x, m) && h <= x[m]
    ensures Separated(Keep(LocalMaxima(x), HighEnough(x, h)), PeakDistance)
  {
    var maxima := LocalMaxima(x);
    var high := Keep(maxima, HighEnough(x, h));
    KeepSeparated(maxima, HighEnough(x, h), PeakDistance);
    forall m: nat
      ensures m in high <==> IsPeak(x, m) && h <= x[m]
    {
      if m in high {
        var k :| 0 <= k < |high| && high[k] == m;
      }
      if IsPeak(x, m) && h <= x[m] {
        var k :| 0 <= k < |maxima| && maxima[k] == m;
        assert HighEnough(x, h)(maxima[k]);
      }
    }
  }

  /** Every peak lies strictly inside the series. */
  lemma PeakInterior(x: seq<real>, m: nat)
    requires IsPeak(x, m)
    ensures 1 <= m < |x| - 1
  {
  }

  // ---------------------------------------------------------------------------
  // Valleys as the peaks of the negated series

  /** `-x`. */
  function Negate(x: seq<real>): (y: seq<real>)
    ensures |y| == |x|
    ensures forall i :: 0 <= i < |x| ==> y[i] == -x[i]
  {
    seq(|x|, i requires 0 <= i < |x| => -x[i])
  }

  lemma {:induction false} RunStartNegate(x: seq<real>, m: nat)
    requires m < |x|
    ensures RunStart(Negate(x), m) == RunStart(x, m)
    decreases m
  {
    if m > 0 {
      RunStartNegate(x, m - 1);
    }
  }

  lemma {:induction false} RunEndNegate(x: seq<real>, m: nat)
    requires m < |x|
    ensures RunEnd(Negate(x), m) == RunEnd(x, m)
    decreases |x| - m
  {
    if m + 1 < |x| {
      RunEndNegate(x, m + 1);
    }
  }

  /** The peaks of `-x` are exactly the valleys of `x`. */
  lemma NegatePeakIsValley(x: seq<real>, m: nat)
    ensures IsPeak(Negate(x), m) <==> IsValley(x, m)
  {
    if m < |x| {
      RunStartNegate(x, m);
      RunEndNegate(x, m);
      MirrorRun(x, Negate(x), m, RunStart(x, m), RunEnd(x, m));
    }
  }

  /** Over the same run, a peak shape of the mirror image is a valley shape. */
  lemma MirrorRun(x: seq<real>, y: seq<real>, m: nat, l: nat, r: nat)
    requires |y| == |x| && m < |x|
    requires forall i :: 0 <= i < |x| ==> y[i] == -x[i]
    ensures RunIsPeak(y, m, l, r) <==> RunIsValley(x, m, l, r)
  {
  }

  /** `find_peaks(-x, height=-h, distance=2)`: the valleys of `x` whose value is at most `h`. */
  function FindValleys(x: seq<real>, h: real): (ps: seq<nat>)
    ensures forall m: nat :: m in ps <==> IsValley(x, m) && x[m] <= h
    ensures Separated(ps, PeakDistance)
  {
    var ps := FindPeaks(Negate(x), -h);
    NegatedPeaks(x, h, ps);
    ps
  }

  lemma NegatedPeaks(x: seq<real>, h: real, ps: seq<nat>)
    requires forall m: nat :: m in ps <==> IsPeak(Negate(x), m) && -h <= Negate(x)[m]
    ensures forall m: nat :: m in ps <==> IsValley(x, m) && x[m] <= h
  {
    forall m: nat
      ensures m in ps <==> IsValley(x, m) && x[m] <= h
    {
      NegatePeakIsValley(x, m);
    }
  }
}
