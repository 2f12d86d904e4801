/** Worked examples on concrete hourly series. */
module Scenarios {
  import opened Seqs
  import opened Peaks

  /** The series 10, 12, 2: its 75th percentile lies halfway between 10 and
      12, its 25th halfway between 2 and 10. */
  lemma PercentilesOfThree()
    ensures Percentile([10.0, 12.0, 2.0], 75) == 11.0
    ensures Percentile([10.0, 12.0, 2.0], 25) == 6.0
  {
    SortThree();
    InterpolateThree();
  }

  lemma SortThree()
    ensures SortBy([10.0, 12.0, 2.0], RealKey) == [2.0, 10.0, 12.0]
  {
    assert [10.0, 12.0, 2.0][1..] == [12.0, 2.0];
    SortTwo();
    InsertTen();
  }

  lemma SortTwo()
    ensures SortBy([12.0, 2.0], RealKey) == [2.0, 12.0]
  {
    assert [12.0, 2.0][1..] == [2.0];
    assert [2.0][1..] == [];
    assert SortBy([2.0], RealKey) == [2.0];
    InsertTwelve();
  }

  lemma InsertTwelve()
    ensures InsertBy(12.0, [2.0], RealKey) == [2.0, 12.0]
  {
    assert [2.0][1..] == [];
  }

  lemma InsertTen()
    ensures InsertBy(10.0, [2.0, 12.0], RealKey) == [2.0, 10.0, 12.0]
  {
    assert [2.0, 12.0][1..] == [12.0];
    assert InsertBy(10.0, [12.0], RealKey) == [10.0, 12.0];
  }

  lemma InterpolateThree()
    ensures Interpolate([2.0, 10.0, 12.0], 75) == 11.0
    ensures Interpolate([2.0, 10.0, 12.0], 25) == 6.0
  {
    assert Rank(3, 75) == 1 && Fraction(3, 75) == 0.5;
    assert Rank(3, 25) == 0 && Fraction(3, 25) == 0.5;
  }

  /** In 10, 12, 2 the middle hour is the one high peak; there is no low peak,
      since only an interior hour can be a valley and the middle one is a peak. */
  lemma PeaksOfThree()
    ensures FindPeaks([10.0, 12.0, 2.0], 11.0) == [1]
    ensures FindValleys([10.0, 12.0, 2.0], 6.0) == []
  {
    var x := [10.0, 12.0, 2.0];
    assert RunStart(x, 1) == 1 && RunEnd(x, 1) == 1;
    assert IsPeak(x, 1);
    var hs := FindPeaks(x, 11.0);
    OnlyOne(hs, 1);
    var ls := FindValleys(x, 6.0);
    assert !IsValley(x, 1);
  }

  /** A separated index list whose only member is `m` is `[m]`. */
  lemma OnlyOne(ps: seq<nat>, m: nat)
    requires Separated(ps, PeakDistance)
    requires forall k: nat :: k in ps <==> k == m
    ensures ps == [m]
  {
    assert m in ps;
    assert forall k :: 0 <= k < |ps| ==> ps[k] == m by {
      forall k | 0 <= k < |ps|
        ensures ps[k] == m
      {
        assert ps[k] in ps;
      }
    }
    assert ps[0] + PeakDistance > ps[|ps| - 1];
  }

  /** A series whose hours all hold the same total has no peak and no valley. */
  lemma ConstantSeriesHasNoPeaks(x: seq<real>, c: real, h: real)
    requires forall i :: 0 <= i < |x| ==> x[i] == c
    ensures FindPeaks(x, h) == [] && FindValleys(x, h) == []
  {
    forall m: nat
      ensures !IsPeak(x, m) && !IsValley(x, m)
    {
      FlatNoPeak(x, c, m);
    }
  }

  lemma FlatNoPeak(x: seq<real>, c: real, m: nat)
    requires forall i :: 0 <= i < |x| ==> x[i] == c
    ensures !IsPeak(x, m) && !IsValley(x, m)
  {
  }
}
