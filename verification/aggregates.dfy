/** The pattern tables: `groupby(...)` over project and a calendar column with
    the sum, mean and count of `Quantidade` per group, and the per-project
    summary. */
module Aggregates {
  import opened Records
  import opened Seqs
  import opened Keys
  import opened Grouping

  /** One row of `agg({'Quantidade': ['sum', 'mean', 'count']})`: the group key
      and the `Total`, `Media` and `Contagem` columns. */
  datatype Stats = Stats(key: Key, total: real, mean: real, count: nat)

  /** `s` holds the sum, mean and count of the quantities of `sel`, a non-empty selection. */
  ghost predicate Summarises(s: Stats, sel: seq<Movement>)
  {
    && |sel| > 0
    && s.count == |sel|
    && s.total == SumBy(sel, Quantity)
    && s.mean == s.total / (|sel| as real)
  }

  function StatsOf(g: Group): (s: Stats)
    requires |g.members| > 0
    ensures s.key == g.key && Summarises(s, g.members)
  {
    var n := |g.members| as real;
    var total := SumBy(g.members, Quantity);
    Stats(g.key, total, total / n, |g.members|)
  }

  function StatsOfGroups(gs: seq<Group>): (t: seq<Stats>)
    requires forall i :: 0 <= i < |gs| ==> |gs[i].members| > 0
    ensures |t| == |gs|
    ensures forall i :: 0 <= i < |gs| ==> t[i] == StatsOf(gs[i])
  {
    seq(|gs|, i requires 0 <= i < |gs| => StatsOf(gs[i]))
  }

  function StatsKeys(t: seq<Stats>): (ks: seq<Key>)
    ensures |ks| == |t|
    ensures forall i :: 0 <= i < |t| ==> ks[i] == t[i].key
  {
    seq(|t|, i requires 0 <= i < |t| => t[i].key)
  }

  /** `groupby(keyOf).agg(sum, mean, count).reset_index()`: one row per
      distinct key in ascending key order, each summarising exactly the
      records with that key. */
  function Aggregate(rows: seq<Movement>, keyOf: Movement -> Key): (t: seq<Stats>)
    ensures |t| <= |rows|
    ensures forall i, j :: 0 <= i < j < |t| ==> KeyLess(t[i].key, t[j].key)
    ensures forall i :: 0 <= i < |t| ==> Summarises(t[i], Keep(rows, HasKey(keyOf, t[i].key)))
    ensures forall m :: m in rows ==> keyOf(m) in StatsKeys(t)
  {
    var gs := Split(rows, keyOf);
    var t := StatsOfGroups(gs);
    assert StatsKeys(t) == GroupKeys(gs);
    t
  }

  function Counts(t: seq<Stats>): real
    decreases |t|
  {
    if |t| == 0 then 0.0 else t[0].count as real + Counts(t[1..])
  }

  function Totals(t: seq<Stats>): real
    decreases |t|
  {
    if |t| == 0 then 0.0 else t[0].total + Totals(t[1..])
  }

  /** No record is lost or counted twice: the counts add up to the number of
      records and the totals to the overall quantity. */
  lemma AggregatePartitions(rows: seq<Movement>, keyOf: Movement -> Key)
    ensures Counts(Aggregate(rows, keyOf)) == |rows| as real
    ensures Totals(Aggregate(rows, keyOf)) == SumBy(rows, Quantity)
  {
    var gs := Split(rows, keyOf);
    SplitPartitions(rows, keyOf, Quantity);
    GroupSums(gs);
  }

  lemma {:induction false} GroupSums(gs: seq<Group>)
    requires forall i :: 0 <= i < |gs| ==> |gs[i].members| > 0
    ensures Counts(StatsOfGroups(gs)) == SizeOverGroups(gs) as real
    ensures Totals(StatsOfGroups(gs)) == SumOverGroups(gs, Quantity)
    decreases |gs|
  {
    if |gs| > 0 {
      GroupSums(gs[1..]);
      assert StatsOfGroups(gs)[1..] == StatsOfGroups(gs[1..]);
    }
  }

  /** `Media` lies between the smallest and the largest quantity of its group. */
  lemma MeanWithinGroup(s: Stats, sel: seq<Movement>, lo: real, hi: real)
    requires Summarises(s, sel)
    requires forall m :: m in sel ==> lo <= m.quantity <= hi
    ensures lo <= s.mean <= hi
  {
    var n := |sel| as real;
    SumByBounds(sel, Quantity, lo, hi);
    DivideBounds(s.total, n, s.mean, lo, hi);
  }

  lemma DivideBounds(total: real, n: real, mean: real, lo: real, hi: real)
    requires n > 0.0 && mean == total / n && n * lo <= total <= n * hi
    ensures lo <= mean <= hi
  {
    assert mean * n == total;
  }

  // ---------------------------------------------------------------------------
  // The four pattern tables

  /** `analyze_hourly_patterns`: key (`Linha ATO`, `Hora`). */
  function HourlyKey(m: Movement): Key
  {
    [S(m.project), I(m.hour)]
  }

  /** `analyze_daily_patterns_by_day_number`: key (`Linha ATO`, `Dia`). */
  function DayKey(m: Movement): Key
  {
    [S(m.project), I(m.day)]
  }

  /** `analyze_day_hour_patterns`: key (`Linha ATO`, `Dia`, `Hora`). */
  function DayHourKey(m: Movement): Key
  {
    [S(m.project), I(m.day), I(m.hour)]
  }

  function HourlyPatterns(rows: seq<Movement>): (t: seq<Stats>)
    ensures forall i :: 0 <= i < |t| ==> Summarises(t[i], Keep(rows, HasKey(HourlyKey, t[i].key)))
    ensures forall i, j :: 0 <= i < j < |t| ==> KeyLess(t[i].key, t[j].key)
    ensures forall m :: m in rows ==> HourlyKey(m) in StatsKeys(t)
  {
    Aggregate(rows, HourlyKey)
  }

  function DayOfMonthPatterns(rows: seq<Movement>): (t: seq<Stats>)
    ensures forall i :: 0 <= i < |t| ==> Summarises(t[i], Keep(rows, HasKey(DayKey, t[i].key)))
    ensures forall i, j :: 0 <= i < j < |t| ==> KeyLess(t[i].key, t[j].key)
    ensures forall m :: m in rows ==> DayKey(m) in StatsKeys(t)
  {
    Aggregate(rows, DayKey)
  }

  /** A row of `analyze_day_hour_patterns`: the statistics and the `Dia_Hora` label. */
  datatype DayHourRow = DayHourRow(stats: Stats, dayHour: string)

  function DayHourPatterns(rows: seq<Movement>): (t: seq<DayHourRow>)
    ensures |t| == |Aggregate(rows, DayHourKey)|
    ensures forall i :: 0 <= i < |t| ==> t[i].stats == Aggregate(rows, DayHourKey)[i]
    ensures forall i :: 0 <= i < |t| ==> var k := t[i].stats.key;
      |k| == 3 && k[1].I? && k[2].I? && t[i].dayHour == DayHourLabel(k[1].i, k[2].i)
  {
    DayHourKeysShape(rows);
    LabelRows(Aggregate(rows, DayHourKey), DayHourLabel)
  }

  /** Every day-hour group key is a (project, day, hour) triple. */
  lemma DayHourKeysShape(rows: seq<Movement>)
    ensures forall i :: 0 <= i < |Aggregate(rows, DayHourKey)| ==>
              var k := Aggregate(rows, DayHourKey)[i].key;
              |k| == 3 && k[1].I? && k[2].I?
  {
    var a := Aggregate(rows, DayHourKey);
    forall i | 0 <= i < |a|
      ensures |a[i].key| == 3 && a[i].key[1].I? && a[i].key[2].I?
    {
      var sel := Keep(rows, HasKey(DayHourKey, a[i].key));
      assert HasKey(DayHourKey, a[i].key)(sel[0]);
    }
  }

  /** Each statistics row with the label of its day and hour. */
  function LabelRows(a: seq<Stats>, name: (int, int) -> string): (t: seq<DayHourRow>)
    requires forall i :: 0 <= i < |a| ==> |a[i].key| == 3 && a[i].key[1].I? && a[i].key[2].I?
    ensures |t| == |a|
    ensures forall i :: 0 <= i < |t| ==> t[i] == DayHourRow(a[i], name(a[i].key[1].i, a[i].key[2].i))
    decreases |a|
  {
    if |a| == 0 then []
    else
      var tail := LabelRows(a[1..], name);
      assert forall i :: 1 <= i < |a| ==> a[i] == a[1..][i - 1];
      [DayHourRow(a[0], name(a[0].key[1].i, a[0].key[2].i))] + tail
  }

  // ---------------------------------------------------------------------------
  // The `Dia_Hora` label: `str(Dia) + 'h' + str(Hora).zfill(2)`

  function Digit(n: nat): (c: char)
    requires n < 10
  {
    (48 + n) as char
  }

  /** `str(n)` for an integer that is not negative. */
  function Decimal(n: nat): (s: string)
    ensures |s| > 0
    ensures forall k :: 0 <= k < |s| ==> '0' <= s[k] <= '9'
    decreases n
  {
    if n < 10 then [Digit(n)] else Decimal(n / 10) + [Digit(n % 10)]
  }

  /** `str(n)` for any integer: a minus sign before the digits of a negative one. */
  function Str(n: int): (s: string)
    ensures |s| > 0
    ensures forall k :: 0 <= k < |s| ==> s[k] != 'h'
  {
    if n < 0 then "-" + Decimal(-n) else Decimal(n)
  }

  /** `str.zfill(2)`: left-pad with zeros to two characters, after a sign if there is one. */
  function ZFill2(s: string): (r: string)
    ensures |r| >= 2
  {
    if |s| >= 2 then s
    else if |s| == 1 && (s[0] == '-' || s[0] == '+') then [s[0]] + "0"
    else if |s| == 1 then "0" + s
    else "00"
  }

  function DayHourLabel(day: int, hour: int): string
  {
    Str(day) + "h" + ZFill2(Str(hour))
  }

  /** The value of a string of decimal digits. */
  function DigitsValue(s: string): nat
    decreases |s|
  {
    if |s| == 0 then 0
    else
      var c := s[|s| - 1] as int - 48;
      DigitsValue(s[..|s| - 1]) * 10 + (if 0 <= c < 10 then c else 0)
  }

  lemma {:induction false} DecimalValue(n: nat)
    ensures DigitsValue(Decimal(n)) == n
    decreases n
  {
    if n >= 10 {
      DecimalValue(n / 10);
      var s := Decimal(n);
      assert s[..|s| - 1] == Decimal(n / 10);
    }
  }

  lemma {:induction false} LeadingZeroValue(s: string)
    ensures DigitsValue("0" + s) == DigitsValue(s)
    decreases |s|
  {
    if |s| > 0 {
      var t := "0" + s;
      assert t[..|t| - 1] == "0" + s[..|s| - 1];
      LeadingZeroValue(s[..|s| - 1]);
    }
  }

  /** The position of the first `h`, or the length when there is none. */
  function FindH(s: string): (i: nat)
    ensures i <= |s|
    ensures forall k :: 0 <= k < i ==> s[k] != 'h'
    ensures i < |s| ==> s[i] == 'h'
    decreases |s|
  {
    if |s| == 0 then 0 else if s[0] == 'h' then 0 else 1 + FindH(s[1..])
  }

  /** Reads day and hour back from a label of a day and an hour of the calendar. */
  function ParseLabel(text: string): (nat, nat)
  {
    var i := FindH(text);
    (DigitsValue(text[..i]), if i < |text| then DigitsValue(text[i + 1..]) else 0)
  }

  /** For a calendar day (1..31) and hour (0..23) the label gives both back,
      so distinct (day, hour) pairs get distinct labels. */
  lemma LabelRoundTrip(day: nat, hour: nat)
    requires hour < 100
    ensures ParseLabel(DayHourLabel(day, hour)) == (day, hour)
  {
    var a := Decimal(day);
    var z := ZFill2(Decimal(hour));
    var text := DayHourLabel(day, hour);
    assert text == a + "h" + z;
    assert text[|a|] == 'h';
    assert FindH(text) == |a|;
    assert text[..|a|] == a;
    assert text[|a| + 1..] == z;
    DecimalValue(day);
    DecimalValue(hour);
    if |Decimal(hour)| < 2 {
      LeadingZeroValue(Decimal(hour));
    }
  }

  lemma LabelsDistinct(d1: nat, h1: nat, d2: nat, h2: nat)
    requires h1 < 100 && h2 < 100
    requires DayHourLabel(d1, h1) == DayHourLabel(d2, h2)
    ensures d1 == d2 && h1 == h2
  {
    LabelRoundTrip(d1, h1);
    LabelRoundTrip(d2, h2);
  }

  // ---------------------------------------------------------------------------
  // `analyze_daily_patterns`

  /** Portuguese weekday names in the order Monday..Sunday. */
  const WeekdayNamesPt: seq<string> := ["Segunda", "Terça", "Quarta", "Quinta", "Sexta", "Sábado", "Domingo"]

  /** `Dia_Semana.map(dict(zip(dias_ordem, dias_pt)))`: the Portuguese name,
      or no value (NaN) for a name the table does not hold. */
  function Translate(name: string): (r: Option<string>)
    ensures r.Some? <==> name in WeekdayNames
    ensures r.Some? ==> r.value in WeekdayNamesPt
    ensures forall k :: 0 <= k < 7 && name == WeekdayNames[k] ==> r == Some(WeekdayNamesPt[k])
  {
    var k := DayOrder(name);
    assert forall j :: 0 <= j < 7 && name == WeekdayNames[j] ==> j == k by {
      DistinctNames();
    }
    if k < 7 then Some(WeekdayNamesPt[k]) else None
  }

  /** Distinct weekdays get distinct Portuguese names. */
  lemma TranslateInjective(a: string, b: string)
    requires Translate(a).Some? && Translate(a) == Translate(b)
    ensures a == b
  {
    var i, j := DayOrder(a), DayOrder(b);
    assert WeekdayNamesPt[i] == WeekdayNamesPt[j];
    assert i == j by {
      DistinctPt(i, j);
    }
  }

  lemma DistinctNames()
    ensures forall i, j :: 0 <= i < 7 && 0 <= j < 7 && WeekdayNames[i] == WeekdayNames[j] ==> i == j
  {
  }

  lemma DistinctPt(i: nat, j: nat)
    requires i < 7 && j < 7 && WeekdayNamesPt[i] == WeekdayNamesPt[j]
    ensures i == j
  {
  }

  /** The group key (`Linha ATO`, `Dia_Ordem`, `Dia_Semana`): grouping by it
      forms the same groups as grouping by project and weekday name, and its
      order is the stable sort by (`Linha ATO`, `Dia_Ordem`) of the groups in
      (`Linha ATO`, `Dia_Semana`) order. */
  function WeekdayKey(m: Movement): Key
  {
    [S(m.project), I(DayOrder(m.weekday)), S(m.weekday)]
  }

  /** The mask "this record is of `project` on weekday `name`". */
  function OnWeekday(project: string, name: string): Movement -> bool
  {
    (m: Movement) => m.project == project && m.weekday == name
  }

  /** A row of `analyze_daily_patterns`. */
  datatype WeekdayRow = WeekdayRow(project: string, weekday: string, stats: Stats, weekdayPt: Option<string>, order: nat)

  function WeekdayPatterns(rows: seq<Movement>): (t: seq<WeekdayRow>)
    ensures forall i :: 0 <= i < |t| ==> Summarises(t[i].stats, Keep(rows, OnWeekday(t[i].project, t[i].weekday)))
    ensures forall i :: 0 <= i < |t| ==> t[i].order == DayOrder(t[i].weekday) && t[i].weekdayPt == Translate(t[i].weekday)
    ensures forall i, j :: 0 <= i < j < |t| ==>
      StrLess(t[i].project, t[j].project) || (t[i].project == t[j].project && t[i].order <= t[j].order)
    ensures forall i, j :: 0 <= i < j < |t| ==> (t[i].project, t[i].weekday) != (t[j].project, t[j].weekday)
    ensures forall m :: m in rows ==> exists i :: 0 <= i < |t| && t[i].project == m.project && t[i].weekday == m.weekday
  {
    var a := Aggregate(rows, WeekdayKey);
    WeekdayKeys(rows, a);
    var t := seq(|a|, i requires 0 <= i < |a| => WeekdayRowOf(a[i]));
    WeekdayRowsFacts(rows, a, t);
    t
  }

  predicate IsWeekdayKey(k: Key)
  {
    |k| == 3 && k[0].S? && k[2].S? && k[1] == I(DayOrder(k[2].s))
  }

  function WeekdayRowOf(s: Stats): WeekdayRow
    requires IsWeekdayKey(s.key)
  {
    var name := s.key[2].s;
    WeekdayRow(s.key[0].s, name, s, Translate(name), DayOrder(name))
  }

  lemma WeekdayKeys(rows: seq<Movement>, a: seq<Stats>)
    requires forall i :: 0 <= i < |a| ==> Summarises(a[i], Keep(rows, HasKey(WeekdayKey, a[i].key)))
    ensures forall i :: 0 <= i < |a| ==> IsWeekdayKey(a[i].key)
  {
    forall i | 0 <= i < |a|
      ensures IsWeekdayKey(a[i].key)
    {
      var p := HasKey(WeekdayKey, a[i].key);
      var sel := Keep(rows, p);
      var m := sel[0];
      assert p(m);
      assert p(m) == (WeekdayKey(m) == a[i].key);
      assert a[i].key == WeekdayKey(m) == [S(m.project), I(DayOrder(m.weekday)), S(m.weekday)];
    }
  }

  lemma WeekdayRowsFacts(rows: seq<Movement>, a: seq<Stats>, t: seq<WeekdayRow>)
    requires forall i :: 0 <= i < |a| ==> IsWeekdayKey(a[i].key)
    requires forall i :: 0 <= i < |a| ==> Summarises(a[i], Keep(rows, HasKey(WeekdayKey, a[i].key)))
    requires forall i, j :: 0 <= i < j < |a| ==> KeyLess(a[i].key, a[j].key)
    requires forall m :: m in rows ==> WeekdayKey(m) in StatsKeys(a)
    requires |t| == |a| && forall i :: 0 <= i < |a| ==> t[i] == WeekdayRowOf(a[i])
    ensures forall i :: 0 <= i < |t| ==> Summarises(t[i].stats, Keep(rows, OnWeekday(t[i].project, t[i].weekday)))
    ensures forall i :: 0 <= i < |t| ==> t[i].order == DayOrder(t[i].weekday) && t[i].weekdayPt == Translate(t[i].weekday)
    ensures forall i, j :: 0 <= i < j < |t| ==>
      StrLess(t[i].project, t[j].project) || (t[i].project == t[j].project && t[i].order <= t[j].order)
    ensures forall i, j :: 0 <= i < j < |t| ==> (t[i].project, t[i].weekday) != (t[j].project, t[j].weekday)
    ensures forall m :: m in rows ==> exists i :: 0 <= i < |t| && t[i].project == m.project && t[i].weekday == m.weekday
  {
    WeekdayRowsSummarise(rows, a, t);
    WeekdayRowsOrdered(a, t);
    WeekdayRowsCover(rows, a, t);
  }

  lemma WeekdayRowsSummarise(rows: seq<Movement>, a: seq<Stats>, t: seq<WeekdayRow>)
    requires forall i :: 0 <= i < |a| ==> IsWeekdayKey(a[i].key)
    requires forall i :: 0 <= i < |a| ==> Summarises(a[i], Keep(rows, HasKey(WeekdayKey, a[i].key)))
    requires |t| == |a| && forall i :: 0 <= i < |a| ==> t[i] == WeekdayRowOf(a[i])
    ensures forall i :: 0 <= i < |t| ==> Summarises(t[i].stats, Keep(rows, OnWeekday(t[i].project, t[i].weekday)))
  {
    forall i | 0 <= i < |t|
      ensures Summarises(t[i].stats, Keep(rows, OnWeekday(t[i].project, t[i].weekday)))
    {
      SameWeekdayGroup(rows, a[i].key);
    }
  }

  /** Grouping by the weekday key selects the records of one project and weekday name. */
  lemma SameWeekdayGroup(rows: seq<Movement>, k: Key)
    requires IsWeekdayKey(k)
    ensures Keep(rows, HasKey(WeekdayKey, k)) == Keep(rows, OnWeekday(k[0].s, k[2].s))
  {
    assert k == [k[0], k[1], k[2]];
    forall m
      ensures HasKey(WeekdayKey, k)(m) == OnWeekday(k[0].s, k[2].s)(m)
    {
      if OnWeekday(k[0].s, k[2].s)(m) {
        assert WeekdayKey(m) == k;
      }
      if HasKey(WeekdayKey, k)(m) {
        assert WeekdayKey(m)[0] == k[0] && WeekdayKey(m)[2] == k[2];
      }
    }
    KeepSame(rows, HasKey(WeekdayKey, k), OnWeekday(k[0].s, k[2].s));
  }

  lemma WeekdayRowsOrdered(a: seq<Stats>, t: seq<WeekdayRow>)
    requires forall i :: 0 <= i < |a| ==> IsWeekdayKey(a[i].key)
    requires forall i, j :: 0 <= i < j < |a| ==> KeyLess(a[i].key, a[j].key)
    requires |t| == |a| && forall i :: 0 <= i < |a| ==> t[i] == WeekdayRowOf(a[i])
    ensures forall i, j :: 0 <= i < j < |t| ==>
      StrLess(t[i].project, t[j].project) || (t[i].project == t[j].project && t[i].order <= t[j].order)
    ensures forall i, j :: 0 <= i < j < |t| ==> (t[i].project, t[i].weekday) != (t[j].project, t[j].weekday)
  {
    forall i, j | 0 <= i < j < |t|
      ensures StrLess(t[i].project, t[j].project) || (t[i].project == t[j].project && t[i].order <= t[j].order)
      ensures (t[i].project, t[i].weekday) != (t[j].project, t[j].weekday)
    {
      WeekdayKeyLess(a[i].key, a[j].key);
    }
  }

  lemma WeekdayRowsCover(rows: seq<Movement>, a: seq<Stats>, t: seq<WeekdayRow>)
    requires forall i :: 0 <= i < |a| ==> IsWeekdayKey(a[i].key)
    requires forall m :: m in rows ==> WeekdayKey(m) in StatsKeys(a)
    requires |t| == |a| && forall i :: 0 <= i < |a| ==> t[i] == WeekdayRowOf(a[i])
    ensures forall m :: m in rows ==> exists i :: 0 <= i < |t| && t[i].project == m.project && t[i].weekday == m.weekday
  {
    forall m | m in rows
      ensures exists i :: 0 <= i < |t| && t[i].project == m.project && t[i].weekday == m.weekday
    {
      var i :| 0 <= i < |a| && StatsKeys(a)[i] == WeekdayKey(m);
      assert t[i].project == m.project && t[i].weekday == m.weekday;
    }
  }

  /** Ascending weekday keys are ordered by project, then by weekday position,
      and never repeat a (project, weekday) pair. */
  lemma WeekdayKeyLess(k1: Key, k2: Key)
    requires IsWeekdayKey(k1) && IsWeekdayKey(k2) && KeyLess(k1, k2)
    ensures StrLess(k1[0].s, k2[0].s) || (k1[0].s == k2[0].s && DayOrder(k1[2].s) <= DayOrder(k2[2].s))
    ensures (k1[0].s, k1[2].s) != (k2[0].s, k2[2].s)
  {
    assert k1[1..][1..] == [k1[2]] && k2[1..][1..] == [k2[2]];
    if k1[0] == k2[0] && k1[2] == k2[2] {
      KeyLessIrreflexive(k1);
    }
  }

  // ---------------------------------------------------------------------------
  // `create_project_summary`

  /** A row of the project summary (the standard deviation is not modelled). */
  datatype ProjectSummary = ProjectSummary(
    project: string,
    total: real,
    mean: real,
    least: real,
    most: real,
    count: nat,
    first: int,
    last: int,
    periodDays: int)

  function Least(s: seq<Movement>): (r: real)
    requires |s| > 0
    ensures exists i :: 0 <= i < |s| && s[i].quantity == r
    ensures forall i :: 0 <= i < |s| ==> r <= s[i].quantity
    decreases |s|
  {
    if |s| == 1 then s[0].quantity
    else
      var r := Least(s[1..]);
      if s[0].quantity <= r then s[0].quantity else r
  }

  function Most(s: seq<Movement>): (r: real)
    requires |s| > 0
    ensures exists i :: 0 <= i < |s| && s[i].quantity == r
    ensures forall i :: 0 <= i < |s| ==> s[i].quantity <= r
    decreases |s|
  {
    if |s| == 1 then s[0].quantity
    else
      var r := Most(s[1..]);
      if r <= s[0].quantity then s[0].quantity else r
  }

  function Earliest(s: seq<Movement>): (r: int)
    requires |s| > 0
    ensures exists i :: 0 <= i < |s| && s[i].time == r
    ensures forall i :: 0 <= i < |s| ==> r <= s[i].time
    decreases |s|
  {
    if |s| == 1 then s[0].time
    else
      var r := Earliest(s[1..]);
      if s[0].time <= r then s[0].time else r
  }

  function Latest(s: seq<Movement>): (r: int)
    requires |s| > 0
    ensures exists i :: 0 <= i < |s| && s[i].time == r
    ensures forall i :: 0 <= i < |s| ==> s[i].time <= r
    decreases |s|
  {
    if |s| == 1 then s[0].time
    else
      var r := Latest(s[1..]);
      if r <= s[0].time then s[0].time else r
  }

  /** `(last - first).dt.days + 1`: whole days between the first and the last
      record, counting both ends. */
  function PeriodDays(first: int, last: int): (d: int)
    requires first <= last
    ensures d >= 1
    ensures (d - 1) * SecondsPerDay <= last - first < d * SecondsPerDay
  {
    (last - first) / SecondsPerDay + 1
  }

  function ProjectKey(m: Movement): Key
  {
    [S(m.project)]
  }

  /** The mask "this record is of `project`". */
  function OfProject(project: string): Movement -> bool
  {
    (m: Movement) => m.project == project
  }

  /** What a summary row states about the records `sel` of its project:
      count, sum and mean, the extreme quantities, and the time span. */
  ghost predicate Describes(r: ProjectSummary, sel: seq<Movement>)
  {
    && |sel| > 0
    && r.count == |sel|
    && r.total == SumBy(sel, Quantity)
    && r.mean == r.total / (|sel| as real)
    && r.least <= r.mean <= r.most
    && Extremes(r.least, r.most, sel)
    && Span(r.first, r.last, sel)
    && r.periodDays >= 1
    && (r.periodDays - 1) * SecondsPerDay <= r.last - r.first < r.periodDays * SecondsPerDay
  }

  /** `lo` and `hi` are the smallest and the largest quantity of `sel`. */
  ghost predicate Extremes(lo: real, hi: real, sel: seq<Movement>)
  {
    && (exists i :: 0 <= i < |sel| && sel[i].quantity == lo)
    && (exists i :: 0 <= i < |sel| && sel[i].quantity == hi)
    && (forall i :: 0 <= i < |sel| ==> lo <= sel[i].quantity <= hi)
  }

  /** `first` and `last` are the earliest and the latest timestamp of `sel`. */
  ghost predicate Span(first: int, last: int, sel: seq<Movement>)
  {
    && (exists i :: 0 <= i < |sel| && sel[i].time == first)
    && (exists i :: 0 <= i < |sel| && sel[i].time == last)
    && (forall i :: 0 <= i < |sel| ==> first <= sel[i].time <= last)
  }

  function SummaryOf(s: Stats, sel: seq<Movement>): (r: ProjectSummary)
    requires |s.key| == 1 && s.key[0].S? && Summarises(s, sel)
    ensures Describes(r, sel) && r.project == s.key[0].s
  {
    var lo, hi := Least(sel), Most(sel);
    MeanBetweenExtremes(s, sel);
    ExtremesOf(sel);
    var first, last := Earliest(sel), Latest(sel);
    assert first <= last by { assert first <= sel[0].time <= last; }
    SpanOf(sel);
    var r := ProjectSummary(s.key[0].s, s.total, s.mean, lo, hi, s.count, first, last, PeriodDays(first, last));
    DescribesIntro(r, sel);
    r
  }

  lemma DescribesIntro(r: ProjectSummary, sel: seq<Movement>)
    requires |sel| > 0 && r.count == |sel| && r.total == SumBy(sel, Quantity)
    requires r.mean == r.total / (|sel| as real) && r.least <= r.mean <= r.most
    requires Extremes(r.least, r.most, sel) && Span(r.first, r.last, sel)
    requires r.first <= r.last && r.periodDays == PeriodDays(r.first, r.last)
    ensures Describes(r, sel)
  {
  }

  lemma ExtremesOf(sel: seq<Movement>)
    requires |sel| > 0
    ensures Extremes(Least(sel), Most(sel), sel)
  {
  }

  lemma SpanOf(sel: seq<Movement>)
    requires |sel| > 0
    ensures Span(Earliest(sel), Latest(sel), sel)
  {
  }

  /** The mean of a group lies between its smallest and its largest quantity. */
  lemma MeanBetweenExtremes(s: Stats, sel: seq<Movement>)
    requires Summarises(s, sel)
    ensures Least(sel) <= s.mean <= Most(sel)
  {
    var lo, hi := Least(sel), Most(sel);
    forall m | m in sel
      ensures lo <= m.quantity <= hi
    {
      var i :| 0 <= i < |sel| && sel[i] == m;
    }
    MeanWithinGroup(s, sel, lo, hi);
  }

  /** `create_project_summary`: one row per project, ascending by project. */
  function ProjectSummaries(rows: seq<Movement>): (t: seq<ProjectSummary>)
    ensures forall i :: 0 <= i < |t| ==> Describes(t[i], Keep(rows, OfProject(t[i].project)))
    ensures forall i, j :: 0 <= i < j < |t| ==> StrLess(t[i].project, t[j].project)
    ensures forall m :: m in rows ==> exists i :: 0 <= i < |t| && t[i].project == m.project
  {
    var a := Aggregate(rows, ProjectKey);
    ProjectKeys(rows, a);
    var describe := (s: Stats) requires |s.key| == 1 && s.key[0].S? && Summarises(s, Keep(rows, OfProject(s.key[0].s)))
      => SummaryOf(s, Keep(rows, OfProject(s.key[0].s)));
    var t := SummariesOf(a, describe);
    SummariesDescribe(rows, a, t);
    ProjectOrder(rows, a, t);
    t
  }

  /** `describe` applied to each project's statistics, in the statistics' order. */
  function SummariesOf(a: seq<Stats>, describe: Stats --> ProjectSummary): (t: seq<ProjectSummary>)
    requires forall i :: 0 <= i < |a| ==> describe.requires(a[i])
    ensures |t| == |a|
    ensures forall i :: 0 <= i < |t| ==> t[i] == describe(a[i])
    decreases |a|
  {
    if |a| == 0 then []
    else
      var tail := SummariesOf(a[1..], describe);
      assert forall i :: 1 <= i < |a| ==> a[i] == a[1..][i - 1];
      [describe(a[0])] + tail
  }

  /** Project summaries stated for each statistics row of the project split. */
  lemma SummariesDescribe(rows: seq<Movement>, a: seq<Stats>, t: seq<ProjectSummary>)
    requires forall i :: 0 <= i < |a| ==> |a[i].key| == 1 && a[i].key[0].S?
    requires forall i :: 0 <= i < |a| ==> Summarises(a[i], Keep(rows, OfProject(a[i].key[0].s)))
    requires |t| == |a|
    requires forall i :: 0 <= i < |t| ==> t[i] == SummaryOf(a[i], Keep(rows, OfProject(a[i].key[0].s)))
    ensures forall i :: 0 <= i < |t| ==> t[i].project == a[i].key[0].s
    ensures forall i :: 0 <= i < |t| ==> Describes(t[i], Keep(rows, OfProject(t[i].project)))
  {
  }

  lemma ProjectKeys(rows: seq<Movement>, a: seq<Stats>)
    requires forall i :: 0 <= i < |a| ==> Summarises(a[i], Keep(rows, HasKey(ProjectKey, a[i].key)))
    ensures forall i :: 0 <= i < |a| ==> |a[i].key| == 1 && a[i].key[0].S?
    ensures forall i :: 0 <= i < |a| ==> Summarises(a[i], Keep(rows, OfProject(a[i].key[0].s)))
  {
    forall i | 0 <= i < |a|
      ensures |a[i].key| == 1 && a[i].key[0].S?
      ensures Summarises(a[i], Keep(rows, OfProject(a[i].key[0].s)))
    {
      var sel := Keep(rows, HasKey(ProjectKey, a[i].key));
      assert HasKey(ProjectKey, a[i].key)(sel[0]);
      KeepSame(rows, HasKey(ProjectKey, a[i].key), OfProject(a[i].key[0].s));
    }
  }

  lemma ProjectOrder(rows: seq<Movement>, a: seq<Stats>, t: seq<ProjectSummary>)
    requires forall i :: 0 <= i < |a| ==> |a[i].key| == 1 && a[i].key[0].S?
    requires forall i, j :: 0 <= i < j < |a| ==> KeyLess(a[i].key, a[j].key)
    requires forall m :: m in rows ==> ProjectKey(m) in StatsKeys(a)
    requires |t| == |a| && forall i :: 0 <= i < |a| ==> t[i].project == a[i].key[0].s
    ensures forall i, j :: 0 <= i < j < |t| ==> StrLess(t[i].project, t[j].project)
    ensures forall m :: m in rows ==> exists i :: 0 <= i < |t| && t[i].project == m.project
  {
    forall i, j | 0 <= i < j < |t|
      ensures StrLess(t[i].project, t[j].project)
    {
      SingleKeyLess(a[i].key, a[j].key);
    }
    forall m | m in rows
      ensures exists i :: 0 <= i < |t| && t[i].project == m.project
    {
      var i :| 0 <= i < |a| && StatsKeys(a)[i] == ProjectKey(m);
      assert t[i].project == m.project;
    }
  }

  lemma SingleKeyLess(k1: Key, k2: Key)
    requires |k1| == 1 && |k2| == 1 && k1[0].S? && k2[0].S? && KeyLess(k1, k2)
    ensures StrLess(k1[0].s, k2[0].s)
  {
    assert k1[1..] == [] && k2[1..] == [];
  }
}
