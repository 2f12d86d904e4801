/** `detect_peaks_by_project` and `create_peaks_summary`: per project, sum the
    movements of each clock hour, then report the hours whose sum is a peak at
    or above the 75th percentile and those that are a valley at or below the
    25th. */
module PeakReport {
  import opened Records
  import opened Seqs
  import opened Keys
  import opened Grouping
  import opened Peaks

  /** One row of the hourly series: the start of the hour and the summed quantity. */
  datatype Bucket = Bucket(hour: int, total: real)

  /** The group key of `groupby(dt.floor('H'))`. */
  function HourKey(m: Movement): Key
  {
    [I(HourFloor(m.time))]
  }

  /** The mask "this row lies in the hour starting at `h`". */
  function InHour(h: int): Movement -> bool
  {
    (m: Movement) => HourFloor(m.time) == h
  }

  /** `groupby(dt.floor('H'))['Quantidade'].sum().reset_index()`: one bucket per
      clock hour that holds a movement, in ascending hour order. */
  function HourlyBuckets(rows: seq<Movement>): (bs: seq<Bucket>)
    ensures HourlySeries(rows, bs)
  {
    HourlySplit(rows);
    Buckets(Split(rows, HourKey))
  }

  /** `bs` is the hourly series of `rows`: no longer than the table, hours
      ascending and on the hour, every bucket's hour holding at least one row
      and its total the sum over exactly those rows, and every row's hour
      present. */
  ghost predicate HourlySeries(rows: seq<Movement>, bs: seq<Bucket>)
  {
    && |bs| <= |rows|
    && (forall i, j :: 0 <= i < j < |bs| ==> bs[i].hour < bs[j].hour)
    && (forall i :: 0 <= i < |bs| ==> bs[i].hour % SecondsPerHour == 0)
    && (forall i :: 0 <= i < |bs| ==> |Keep(rows, InHour(bs[i].hour))| > 0)
    && (forall m :: m in rows ==> exists i :: 0 <= i < |bs| && bs[i].hour == HourFloor(m.time))
    && (forall i :: 0 <= i < |bs| ==> bs[i].total == SumBy(Keep(rows, InHour(bs[i].hour)), Quantity))
  }

  lemma HourlySplit(rows: seq<Movement>)
    ensures HourlySeries(rows, Buckets(Split(rows, HourKey)))
  {
    var gs := Split(rows, HourKey);
    BucketTotals(rows, gs);
    BucketOrder(rows, gs);
    BucketCover(rows, gs);
  }

  lemma BucketTotals(rows: seq<Movement>, gs: seq<Group>)
    requires GroupsOf(rows, HourKey, gs)
    requires forall i :: 0 <= i < |gs| ==> |gs[i].members| > 0
    ensures var bs := Buckets(gs);
      forall i :: 0 <= i < |bs| ==> bs[i].total == SumBy(Keep(rows, InHour(bs[i].hour)), Quantity)
    ensures var bs := Buckets(gs);
      forall i :: 0 <= i < |bs| ==> |Keep(rows, InHour(bs[i].hour))| > 0 && bs[i].hour % SecondsPerHour == 0
  {
    var bs := Buckets(gs);
    forall i | 0 <= i < |bs|
      ensures bs[i].total == SumBy(Keep(rows, InHour(bs[i].hour)), Quantity)
      ensures |Keep(rows, InHour(bs[i].hour))| > 0 && bs[i].hour % SecondsPerHour == 0
    {
      BucketOfGroup(rows, gs[i]);
    }
  }

  lemma BucketOrder(rows: seq<Movement>, gs: seq<Group>)
    requires forall i, j :: 0 <= i < j < |gs| ==> KeyLess(gs[i].key, gs[j].key)
    requires GroupsOf(rows, HourKey, gs)
    requires forall i :: 0 <= i < |gs| ==> |gs[i].members| > 0
    ensures var bs := Buckets(gs);
      forall i, j :: 0 <= i < j < |bs| ==> bs[i].hour < bs[j].hour
  {
    var bs := Buckets(gs);
    forall i, j | 0 <= i < j < |bs|
      ensures bs[i].hour < bs[j].hour
    {
      BucketOfGroup(rows, gs[i]);
      BucketOfGroup(rows, gs[j]);
      HourKeyLess(bs[i].hour, bs[j].hour);
    }
  }

  lemma BucketCover(rows: seq<Movement>, gs: seq<Group>)
    requires GroupsOf(rows, HourKey, gs)
    requires forall i :: 0 <= i < |gs| ==> |gs[i].members| > 0
    requires forall m :: m in rows ==> HourKey(m) in GroupKeys(gs)
    requires |gs| <= |rows|
    ensures var bs := Buckets(gs);
      |bs| <= |rows| && forall m :: m in rows ==> exists i :: 0 <= i < |bs| && bs[i].hour == HourFloor(m.time)
  {
    var bs := Buckets(gs);
    forall m | m in rows
      ensures exists i :: 0 <= i < |bs| && bs[i].hour == HourFloor(m.time)
    {
      assert HourKey(m) in GroupKeys(gs);
      var i :| 0 <= i < |gs| && GroupKeys(gs)[i] == HourKey(m);
      BucketOfGroup(rows, gs[i]);
      assert bs[i].hour == HourFloor(m.time);
    }
  }

  /** The bucket of each group, in the groups' order. */
  function Buckets(gs: seq<Group>): (bs: seq<Bucket>)
    requires forall i :: 0 <= i < |gs| ==> |gs[i].members| > 0
    ensures |bs| == |gs|
    ensures forall i :: 0 <= i < |gs| ==> bs[i] == BucketOf(gs[i])
  {
    seq(|gs|, i requires 0 <= i < |gs| => BucketOf(gs[i]))
  }

  /** A group of the hourly split as a bucket. */
  function BucketOf(g: Group): Bucket
    requires |g.members| > 0
  {
    Bucket(HourFloor(g.members[0].time), SumBy(g.members, Quantity))
  }

  lemma HourKeyLess(a: int, b: int)
    requires KeyLess([I(a)], [I(b)])
    ensures a < b
  {
    assert [I(a)][1..] == [];
  }

  /** A non-empty group of the hourly split is keyed by the hour of its rows,
      and its sum is the sum over the rows of that hour. */
  lemma BucketOfGroup(rows: seq<Movement>, g: Group)
    requires |g.members| > 0 && g.members == Keep(rows, HasKey(HourKey, g.key))
    ensures g.key == [I(BucketOf(g).hour)]
    ensures g.members == Keep(rows, InHour(BucketOf(g).hour))
  {
    var m0 := g.members[0];
    assert HasKey(HourKey, g.key)(m0);
    assert forall m :: HasKey(HourKey, g.key)(m) == InHour(HourFloor(m0.time))(m);
    KeepSame(rows, HasKey(HourKey, g.key), InHour(HourFloor(m0.time)));
  }

  /** The hourly buckets together hold the whole quantity of the rows. */
  lemma BucketsHoldTotal(rows: seq<Movement>)
    ensures SumBy(HourlyBuckets(rows), (b: Bucket) => b.total) == SumBy(rows, Quantity)
  {
    var gs := Split(rows, HourKey);
    SplitPartitions(rows, HourKey, Quantity);
    BucketSums(gs);
  }

  lemma {:induction false} BucketSums(gs: seq<Group>)
    requires forall i :: 0 <= i < |gs| ==> |gs[i].members| > 0
    ensures SumBy(Buckets(gs), (b: Bucket) => b.total) == SumOverGroups(gs, Quantity)
    decreases |gs|
  {
    if |gs| > 0 {
      BucketSums(gs[1..]);
      assert Buckets(gs)[1..] == Buckets(gs[1..]);
    }
  }

  // ---------------------------------------------------------------------------
  // One project

  /** The mask `df['Linha ATO'] == project`. */
  function OfProject(project: string): Movement -> bool
  {
    (m: Movement) => m.project == project
  }

  /** The `Quantidade` column of the hourly series. */
  function Totals(bs: seq<Bucket>): (v: seq<real>)
    ensures |v| == |bs|
    ensures forall i :: 0 <= i < |bs| ==> v[i] == bs[i].total
  {
    seq(|bs|, i requires 0 <= i < |bs| => bs[i].total)
  }

  /** Fewer records or hourly buckets than this and a project is skipped. */
  const MinPoints: nat := 3

  /** The entry `detect_peaks_by_project` keeps for one project: its hourly
      series, the positions of its high and low peaks, and the values and
      hours at those positions. */
  datatype ProjectPeaks = ProjectPeaks(
    project: string,
    buckets: seq<Bucket>,
    high: seq<nat>,
    low: seq<nat>,
    valuesHigh: seq<real>,
    valuesLow: seq<real>,
    datesHigh: seq<int>,
    datesLow: seq<int>)

  /** `quantities[ps]`. */
  function ValuesAt(bs: seq<Bucket>, ps: seq<nat>): (r: seq<real>)
    requires forall k :: 0 <= k < |ps| ==> ps[k] < |bs|
    ensures |r| == |ps|
    ensures forall k :: 0 <= k < |ps| ==> r[k] == bs[ps[k]].total
  {
    seq(|ps|, k requires 0 <= k < |ps| => bs[ps[k]].total)
  }

  /** `hourly_data.iloc[ps]['Data Movimento']`. */
  function HoursAt(bs: seq<Bucket>, ps: seq<nat>): (r: seq<int>)
    requires forall k :: 0 <= k < |ps| ==> ps[k] < |bs|
    ensures |r| == |ps|
    ensures forall k :: 0 <= k < |ps| ==> r[k] == bs[ps[k]].hour
  {
    seq(|ps|, k requires 0 <= k < |ps| => bs[ps[k]].hour)
  }

  /** The high peaks are exactly the peaks of `v` reaching its 75th
      percentile and the low peaks exactly the valleys at or below its 25th. */
  ghost predicate PeaksOf(v: seq<real>, high: seq<nat>, low: seq<nat>)
    requires |v| > 0
  {
    && (forall m: nat :: m in high <==> IsPeak(v, m) && Percentile(v, 75) <= v[m])
    && (forall m: nat :: m in low <==> IsValley(v, m) && v[m] <= Percentile(v, 25))
    && Separated(high, PeakDistance) && Separated(low, PeakDistance)
  }

  /** The reported values and hours are those of the buckets at the reported positions. */
  ghost predicate Aligned(bs: seq<Bucket>, ps: seq<nat>, values: seq<real>, hours: seq<int>)
  {
    && |values| == |hours| == |ps|
    && (forall k :: 0 <= k < |ps| ==> ps[k] < |bs| && values[k] == bs[ps[k]].total && hours[k] == bs[ps[k]].hour)
  }

  /** What an entry promises about its hourly series. */
  ghost predicate Consistent(e: ProjectPeaks)
  {
    && |e.buckets| >= MinPoints
    && PeaksOf(Totals(e.buckets), e.high, e.low)
    && Aligned(e.buckets, e.high, e.valuesHigh, e.datesHigh)
    && Aligned(e.buckets, e.low, e.valuesLow, e.datesLow)
  }

  /** The body of the loop of `detect_peaks_by_project` for one project:
      nothing for fewer than three records or three distinct hours, otherwise
      the peaks of its hourly series. */
  function AnalyseProject(rows: seq<Movement>, project: string): (r: Option<ProjectPeaks>)
    ensures r.Some? <==> |Keep(rows, OfProject(project))| >= MinPoints
                         && |HourlyBuckets(Keep(rows, OfProject(project)))| >= MinPoints
    ensures r.Some? ==> && r.value.project == project
                        && r.value.buckets == HourlyBuckets(Keep(rows, OfProject(project)))
                        && Consistent(r.value)
  {
    var own := Keep(rows, OfProject(project));
    if |own| < MinPoints then None
    else
      var bs := HourlyBuckets(own);
      if |bs| < MinPoints then None
      else Some(SeriesPeaks(project, bs))
  }

  /** The entry for a project with at least three hourly buckets. */
  function SeriesPeaks(project: string, bs: seq<Bucket>): (e: ProjectPeaks)
    requires |bs| >= MinPoints
    ensures e.project == project && e.buckets == bs
    ensures Consistent(e)
  {
    var v := Totals(bs);
    var high := FindPeaks(v, Percentile(v, 75));
    var low := FindValleys(v, Percentile(v, 25));
    InRange(v, high);
    InRange(v, low);
    assert PeaksOf(v, high, low);
    ProjectPeaks(project, bs, high, low,
                 ValuesAt(bs, high), ValuesAt(bs, low), HoursAt(bs, high), HoursAt(bs, low))
  }

  /** A project whose movements all fall in one clock hour has a single
      bucket, so it is skipped however many records it has. */
  lemma OneHourIsSkipped(rows: seq<Movement>, project: string, h: int)
    requires forall m :: m in rows && m.project == project ==> HourFloor(m.time) == h
    ensures AnalyseProject(rows, project) == None
  {
    var bs := HourlyBuckets(Keep(rows, OfProject(project)));
    if |bs| >= 2 {
      OnlyHour(rows, project, h, bs[0].hour);
      OnlyHour(rows, project, h, bs[1].hour);
    }
  }

  lemma OnlyHour(rows: seq<Movement>, project: string, h: int, hr: int)
    requires forall m :: m in rows && m.project == project ==> HourFloor(m.time) == h
    requires |Keep(Keep(rows, OfProject(project)), InHour(hr))| > 0
    ensures hr == h
  {
    var own := Keep(rows, OfProject(project));
    var a := Keep(own, InHour(hr))[0];
    var j :| 0 <= j < |own| && own[j] == a;
  }

  /** Positions that are peaks or valleys of `v` index into `v`. */
  lemma InRange(v: seq<real>, ps: seq<nat>)
    requires forall m: nat :: m in ps ==> m < |v|
    ensures forall k :: 0 <= k < |ps| ==> ps[k] < |v|
  {
    forall k | 0 <= k < |ps|
      ensures ps[k] < |v|
    {
      assert ps[k] in ps;
    }
  }

  /** No hour is both a high and a low peak, and every high peak's value is at
      least every low peak's. */
  lemma HighAboveLow(e: ProjectPeaks)
    requires Consistent(e)
    ensures forall m: nat :: !(m in e.high && m in e.low)
    ensures forall i, j :: 0 <= i < |e.valuesHigh| && 0 <= j < |e.valuesLow| ==> e.valuesLow[j] <= e.valuesHigh[i]
  {
    var v := Totals(e.buckets);
    PercentileMonotone(v, 25, 75);
    assert PeaksOf(v, e.high, e.low);
    forall m: nat | m in e.high && m in e.low
      ensures false
    {
      PeakNotValley(v, m);
    }
    forall i, j | 0 <= i < |e.valuesHigh| && 0 <= j < |e.valuesLow|
      ensures e.valuesLow[j] <= e.valuesHigh[i]
    {
      assert e.high[i] in e.high && e.low[j] in e.low;
    }
  }

  lemma PeakNotValley(x: seq<real>, m: nat)
    ensures !(IsPeak(x, m) && IsValley(x, m))
  {
  }

  // ---------------------------------------------------------------------------
  // All projects

  /** The position of the first occurrence of `x` in `s`. */
  function FirstIndex(s: seq<string>, x: string): (i: nat)
    requires x in s
    ensures i < |s| && s[i] == x
    ensures forall k :: 0 <= k < i ==> s[k] != x
  {
    if s[0] == x then 0 else 1 + FirstIndex(s[1..], x)
  }

  /** `Series.unique()`: each value once, in order of first appearance. */
  function Unique(s: seq<string>): (r: seq<string>)
    ensures forall x :: x in r <==> x in s
    ensures forall i, j :: 0 <= i < j < |r| ==> r[i] != r[j]
    ensures forall i, j :: 0 <= i < j < |r| ==> FirstIndex(s, r[i]) < FirstIndex(s, r[j])
    decreases |s|
  {
    if |s| == 0 then []
    else
      var init := s[..|s| - 1];
      var t := Unique(init);
      var x := s[|s| - 1];
      assert s == init + [x];
      FirstIndexPrefix(init, x, t);
      if x in t then t else t + [x]
  }

  /** Appending to a list does not move the first occurrences of what it already held. */
  lemma FirstIndexPrefix(init: seq<string>, x: string, t: seq<string>)
    requires forall y :: y in t ==> y in init
    ensures forall y :: y in t ==> FirstIndex(init + [x], y) == FirstIndex(init, y)
    ensures x !in init ==> FirstIndex(init + [x], x) == |init|
  {
    forall y | y in t
      ensures FirstIndex(init + [x], y) == FirstIndex(init, y)
    {
      FirstIndexAppend(init, [x], y);
    }
    if x !in init {
      var i := FirstIndex(init + [x], x);
      assert (init + [x])[|init|] == x;
    }
  }

  lemma {:induction false} FirstIndexAppend(a: seq<string>, b: seq<string>, y: string)
    requires y in a
    ensures FirstIndex(a + b, y) == FirstIndex(a, y)
    decreases |a|
  {
    if a[0] != y {
      assert (a + b)[1..] == a[1..] + b;
      FirstIndexAppend(a[1..], b, y);
    }
  }

  /** The `Linha ATO` column. */
  function ProjectColumn(rows: seq<Movement>): (c: seq<string>)
    ensures |c| == |rows|
    ensures forall i :: 0 <= i < |rows| ==> c[i] == rows[i].project
  {
    seq(|rows|, i requires 0 <= i < |rows| => rows[i].project)
  }

  /** The projects named by a list of entries. */
  function Names(es: seq<ProjectPeaks>): (ns: seq<string>)
    ensures |ns| == |es|
    ensures forall i :: 0 <= i < |es| ==> ns[i] == es[i].project
  {
    seq(|es|, i requires 0 <= i < |es| => es[i].project)
  }

  /** The mask "this project gets an entry". */
  function Reported(analyse: string -> Option<ProjectPeaks>): string -> bool
  {
    p => analyse(p).Some?
  }

  /** The loop of `detect_peaks_by_project` over the given projects, with
      `analyse` the loop body. */
  function Collect(analyse: string -> Option<ProjectPeaks>, projects: seq<string>): (es: seq<ProjectPeaks>)
    requires forall p :: analyse(p).Some? ==> analyse(p).value.project == p
    ensures forall i :: 0 <= i < |es| ==> analyse(es[i].project) == Some(es[i])
    ensures Names(es) == Keep(projects, Reported(analyse))
    decreases |projects|
  {
    if |projects| == 0 then []
    else
      var rest := Collect(analyse, projects[1..]);
      var r := analyse(projects[0]);
      if r.None? then rest
      else
        assert Names([r.value] + rest) == [r.value.project] + Names(rest);
        [r.value] + rest
  }

  /** `detect_peaks_by_project` as a function of the records. */
  function Analysis(rows: seq<Movement>): string -> Option<ProjectPeaks>
  {
    p => AnalyseProject(rows, p)
  }

  /** `detect_peaks_by_project`: an entry for every project with enough
      records and hours, in order of the project's first appearance. */
  function DetectPeaks(rows: seq<Movement>): (es: seq<ProjectPeaks>)
    ensures forall i :: 0 <= i < |es| ==> AnalyseProject(rows, es[i].project) == Some(es[i]) && Consistent(es[i])
    ensures forall p :: p in Names(es) <==> AnalyseProject(rows, p).Some?
    ensures Names(es) == Keep(Unique(ProjectColumn(rows)), Reported(Analysis(rows)))
  {
    var es := Collect(Analysis(rows), Unique(ProjectColumn(rows)));
    forall p | AnalyseProject(rows, p).Some?
      ensures p in ProjectColumn(rows)
    {
      assert |Keep(rows, OfProject(p))| > 0;
      var m := Keep(rows, OfProject(p))[0];
      var i :| 0 <= i < |rows| && rows[i] == m;
      assert ProjectColumn(rows)[i] == p;
    }
    es
  }

  // ---------------------------------------------------------------------------
  // `create_peaks_summary`

  /** The `Tipo` column: `Pico Alto` or `Pico Baixo`. */
  datatype PeakKind = PicoAlto | PicoBaixo

  /** One row of the summary table: project, kind, hour (`Data/Hora`) and value (`Valor Pico`). */
  datatype PeakRow = PeakRow(project: string, kind: PeakKind, time: int, value: real)

  /** `zip(dates, values)`, one summary row per pair, stopping at the shorter list. */
  function Zip(project: string, kind: PeakKind, dates: seq<int>, values: seq<real>): (r: seq<PeakRow>)
    ensures |r| == if |dates| <= |values| then |dates| else |values|
    ensures forall k :: 0 <= k < |r| ==> r[k] == PeakRow(project, kind, dates[k], values[k])
  {
    var n := if |dates| <= |values| then |dates| else |values|;
    seq(n, k requires 0 <= k < n => PeakRow(project, kind, dates[k], values[k]))
  }

  /** The rows one project contributes: its high peaks, then its low peaks. */
  function EntryRows(e: ProjectPeaks): seq<PeakRow>
  {
    Zip(e.project, PicoAlto, e.datesHigh, e.valuesHigh) + Zip(e.project, PicoBaixo, e.datesLow, e.valuesLow)
  }

  /** The rows of all projects, in the order of the entries. */
  function AllRows(es: seq<ProjectPeaks>): seq<PeakRow>
    decreases |es|
  {
    if |es| == 0 then [] else EntryRows(es[0]) + AllRows(es[1..])
  }

  function RowTime(r: PeakRow): real
  {
    r.time as real
  }

  /** `create_peaks_summary`: every row of every entry, ordered by hour; empty
      when no entry has a peak. */
  function PeaksSummary(es: seq<ProjectPeaks>): (r: seq<PeakRow>)
    ensures SortedBy(r, RowTime)
    ensures multiset(r) == multiset(AllRows(es))
  {
    SortBy(AllRows(es), RowTime)
  }

  lemma {:induction false} AllRowsMember(es: seq<ProjectPeaks>, r: PeakRow)
    ensures r in AllRows(es) <==> exists i :: 0 <= i < |es| && r in EntryRows(es[i])
    decreases |es|
  {
    if |es| > 0 {
      AllRowsMember(es[1..], r);
      if r in AllRows(es[1..]) {
        var i :| 0 <= i < |es[1..]| && r in EntryRows(es[1..][i]);
        assert es[1..][i] == es[i + 1];
      }
      if exists i :: 0 <= i < |es| && r in EntryRows(es[i]) {
        var i :| 0 <= i < |es| && r in EntryRows(es[i]);
        if i > 0 {
          assert es[i] == es[1..][i - 1];
        }
      }
    }
  }

  /** A summary row stands for a bucket of its project: the bucket's hour and
      total are the row's, and the bucket is a high peak (a `Pico Alto` row)
      or a low one (a `Pico Baixo` row) of the project's hourly series. */
  ghost predicate RowOf(e: ProjectPeaks, r: PeakRow)
  {
    && r.project == e.project
    && exists k :: 0 <= k < |e.buckets| && e.buckets[k].hour == r.time && e.buckets[k].total == r.value
                   && (r.kind == PicoAlto ==> k in e.high)
                   && (r.kind == PicoBaixo ==> k in e.low)
  }

  lemma EntryRowsAreBuckets(e: ProjectPeaks, r: PeakRow)
    requires Consistent(e) && r in EntryRows(e)
    ensures RowOf(e, r)
  {
    var hi := Zip(e.project, PicoAlto, e.datesHigh, e.valuesHigh);
    var lo := Zip(e.project, PicoBaixo, e.datesLow, e.valuesLow);
    if r in hi {
      var j :| 0 <= j < |hi| && hi[j] == r;
      assert e.high[j] in e.high;
    } else {
      assert r in lo;
      var j :| 0 <= j < |lo| && lo[j] == r;
      assert e.low[j] in e.low;
    }
  }

  lemma BucketsAreEntryRows(e: ProjectPeaks, k: nat)
    requires Consistent(e) && k < |e.buckets|
    ensures k in e.high ==> PeakRow(e.project, PicoAlto, e.buckets[k].hour, e.buckets[k].total) in EntryRows(e)
    ensures k in e.low ==> PeakRow(e.project, PicoBaixo, e.buckets[k].hour, e.buckets[k].total) in EntryRows(e)
  {
    var hi := Zip(e.project, PicoAlto, e.datesHigh, e.valuesHigh);
    var lo := Zip(e.project, PicoBaixo, e.datesLow, e.valuesLow);
    if k in e.high {
      var j :| 0 <= j < |e.high| && e.high[j] == k;
      assert hi[j] in EntryRows(e);
    }
    if k in e.low {
      var j :| 0 <= j < |e.low| && e.low[j] == k;
      assert lo[j] in EntryRows(e);
    }
  }

  /** Every row of the summary is a high or low peak bucket of some entry. */
  ghost predicate ListsOnlyPeaks(es: seq<ProjectPeaks>)
  {
    forall r :: r in PeaksSummary(es) ==> exists i :: 0 <= i < |es| && RowOf(es[i], r)
  }

  /** Every high and every low peak bucket of every entry has its summary row. */
  ghost predicate ListsAllPeaks(es: seq<ProjectPeaks>)
  {
    && (forall i, k :: 0 <= i < |es| && 0 <= k < |es[i].buckets| && k in es[i].high ==>
          PeakRow(es[i].project, PicoAlto, es[i].buckets[k].hour, es[i].buckets[k].total) in PeaksSummary(es))
    && (forall i, k :: 0 <= i < |es| && 0 <= k < |es[i].buckets| && k in es[i].low ==>
          PeakRow(es[i].project, PicoBaixo, es[i].buckets[k].hour, es[i].buckets[k].total) in PeaksSummary(es))
  }

  /** The summary of `detect_peaks_by_project` lists exactly the detected
      peaks: each row is a high or low peak bucket of a reported project, and
      each such bucket has its row. */
  lemma SummaryListsPeaks(rows: seq<Movement>)
    ensures ListsOnlyPeaks(DetectPeaks(rows))
    ensures ListsAllPeaks(DetectPeaks(rows))
  {
    var es := DetectPeaks(rows);
    SummaryRowsSound(es);
    SummaryRowsComplete(es);
  }

  lemma SummaryRowsSound(es: seq<ProjectPeaks>)
    requires forall i :: 0 <= i < |es| ==> Consistent(es[i])
    ensures ListsOnlyPeaks(es)
  {
    var sum := PeaksSummary(es);
    forall r | r in sum
      ensures exists i :: 0 <= i < |es| && RowOf(es[i], r)
    {
      assert r in multiset(AllRows(es)) by { assert r in multiset(sum); }
      AllRowsMember(es, r);
      var i :| 0 <= i < |es| && r in EntryRows(es[i]);
      EntryRowsAreBuckets(es[i], r);
    }
  }

  lemma SummaryRowsComplete(es: seq<ProjectPeaks>)
    requires forall i :: 0 <= i < |es| ==> Consistent(es[i])
    ensures ListsAllPeaks(es)
  {
    forall i, k | 0 <= i < |es| && 0 <= k < |es[i].buckets|
      ensures k in es[i].high ==> PeakRow(es[i].project, PicoAlto, es[i].buckets[k].hour, es[i].buckets[k].total) in PeaksSummary(es)
      ensures k in es[i].low ==> PeakRow(es[i].project, PicoBaixo, es[i].buckets[k].hour, es[i].buckets[k].total) in PeaksSummary(es)
    {
      BucketsAreEntryRows(es[i], k);
      SummaryHolds(es, i, PeakRow(es[i].project, PicoAlto, es[i].buckets[k].hour, es[i].buckets[k].total));
      SummaryHolds(es, i, PeakRow(es[i].project, PicoBaixo, es[i].buckets[k].hour, es[i].buckets[k].total));
    }
  }

  lemma SummaryHolds(es: seq<ProjectPeaks>, i: nat, r: PeakRow)
    requires i < |es|
    ensures r in EntryRows(es[i]) ==> r in PeaksSummary(es)
  {
    if r in EntryRows(es[i]) {
      AllRowsMember(es, r);
      assert r in multiset(PeaksSummary(es)) by { assert r in multiset(AllRows(es)); }
    }
  }
}
