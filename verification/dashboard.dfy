/** The dashboard page: the entrada and saída sheets merged into one tagged
    table, filtered, and summed into the headline metrics. */
module Dashboard {
  import opened Records
  import opened Seqs
  import opened Filters
  import PeakReport
  import Aggregates

  function Abs(x: real): (r: real)
    ensures r >= 0.0
    ensures r == x || r == -x
  {
    if x < 0.0 then -x else x
  }

  /** `-abs(q)`: the sign the merge forces on every outflow quantity. */
  function Outflow(q: real): (r: real)
    ensures r <= 0.0
    ensures Abs(r) == Abs(q)
    ensures q <= 0.0 ==> r == q
  {
    -Abs(q)
  }

  /** The merge's treatment of one row of the sheet `dir`: `Hora` and `Dia` are
      read again from the timestamp, `Tipo_Movimento` is set, and an outflow
      quantity is made non-positive. */
  function TagRow(m: Movement, dir: Direction): (t: Movement)
  {
    var t := m.(hour := HourOfDay(m.time), day := DayOfMonth(m.time), direction := Some(dir));
    if dir == Saida then t.(quantity := Outflow(m.quantity)) else t
  }

  /** Every row of one sheet, tagged. */
  function TagAll(s: seq<Movement>, dir: Direction): (r: seq<Movement>)
    ensures |r| == |s|
    ensures forall i :: 0 <= i < |s| ==> r[i] == TagRow(s[i], dir)
    decreases |s|
  {
    if |s| == 0 then [] else [TagRow(s[0], dir)] + TagAll(s[1..], dir)
  }

  /** `pd.concat([df_entrada, df_saida])` after both sheets are tagged. */
  function Merge(entrada: seq<Movement>, saida: seq<Movement>): (r: seq<Movement>)
    ensures |r| == |entrada| + |saida|
    ensures forall i :: 0 <= i < |entrada| ==>
              && r[i].direction == Some(Entrada)
              && r[i].quantity == entrada[i].quantity
              && r[i].project == entrada[i].project
              && r[i].time == entrada[i].time
              && r[i].weekday == entrada[i].weekday
              && r[i].rest == entrada[i].rest
              && r[i].hour == HourOfDay(entrada[i].time)
              && r[i].day == DayOfMonth(entrada[i].time)
    ensures forall i :: 0 <= i < |saida| ==>
              && r[|entrada| + i].direction == Some(Saida)
              && r[|entrada| + i].quantity <= 0.0
              && Abs(r[|entrada| + i].quantity) == Abs(saida[i].quantity)
              && r[|entrada| + i].project == saida[i].project
              && r[|entrada| + i].time == saida[i].time
              && r[|entrada| + i].weekday == saida[i].weekday
              && r[|entrada| + i].rest == saida[i].rest
              && r[|entrada| + i].hour == HourOfDay(saida[i].time)
              && r[|entrada| + i].day == DayOfMonth(saida[i].time)
  {
    var a := TagAll(entrada, Entrada);
    var b := TagAll(saida, Saida);
    assert forall i :: 0 <= i < |saida| ==> (a + b)[|entrada| + i] == b[i];
    a + b
  }

  /** On normalised sheets the re-derived `Hora` and `Dia` are the ones already
      there: the merge changes only the tag and the sign of an outflow. */
  lemma MergeOfNormalised(entrada: seq<Movement>, saida: seq<Movement>)
    requires forall m :: m in entrada ==> WellFormed(m)
    requires forall m :: m in saida ==> WellFormed(m)
    ensures forall i :: 0 <= i < |entrada| ==>
              Merge(entrada, saida)[i] == entrada[i].(direction := Some(Entrada))
    ensures forall i :: 0 <= i < |saida| ==>
              Merge(entrada, saida)[|entrada| + i]
                == saida[i].(direction := Some(Saida), quantity := Outflow(saida[i].quantity))
  {
    var a := TagAll(entrada, Entrada);
    var b := TagAll(saida, Saida);
    TagAllNormalised(entrada, Entrada);
    TagAllNormalised(saida, Saida);
    assert Merge(entrada, saida) == a + b;
    assert forall i :: 0 <= i < |saida| ==> (a + b)[|entrada| + i] == b[i];
  }

  lemma TagAllNormalised(s: seq<Movement>, dir: Direction)
    requires forall m :: m in s ==> WellFormed(m)
    ensures dir == Entrada ==> forall i :: 0 <= i < |s| ==> TagAll(s, dir)[i] == s[i].(direction := Some(Entrada))
    ensures dir == Saida ==> forall i :: 0 <= i < |s| ==>
              TagAll(s, dir)[i] == s[i].(direction := Some(Saida), quantity := Outflow(s[i].quantity))
  {
    forall i | 0 <= i < |s|
      ensures WellFormed(s[i])
    {
      assert s[i] in s;
    }
  }

  /** Merging a sheet that was already merged changes nothing: tagging is idempotent. */
  lemma {:induction false} TagTwice(s: seq<Movement>, dir: Direction)
    ensures TagAll(TagAll(s, dir), dir) == TagAll(s, dir)
    decreases |s|
  {
    if |s| > 0 {
      TagTwice(s[1..], dir);
      assert TagAll(s, dir)[1..] == TagAll(s[1..], dir);
    }
  }

  /** The rows of one movement direction. */
  function IsFlow(dir: Direction): Movement -> bool
  {
    (m: Movement) => m.direction == Some(dir)
  }

  /** The outflow quantity as a positive amount. */
  function Magnitude(m: Movement): real
  {
    Abs(m.quantity)
  }

  /** "Total Entradas": the sum of the entrada rows' quantities. */
  function TotalEntradas(rows: seq<Movement>): real
  {
    SumBy(Keep(rows, IsFlow(Entrada)), Quantity)
  }

  /** "Total Saídas": the absolute value of the sum of the saída rows' quantities. */
  function TotalSaidas(rows: seq<Movement>): (r: real)
    ensures r >= 0.0
  {
    Abs(SumBy(Keep(rows, IsFlow(Saida)), Quantity))
  }

  /** Every outflow row carries a non-positive quantity, as the merge leaves it. */
  ghost predicate OutflowsSigned(rows: seq<Movement>)
  {
    forall m :: m in rows && m.direction == Some(Saida) ==> m.quantity <= 0.0
  }

  /** A sum of non-positive quantities is minus the sum of their magnitudes. */
  lemma {:induction false} SumOfOutflows(s: seq<Movement>)
    requires forall m :: m in s ==> m.quantity <= 0.0
    ensures SumBy(s, Quantity) == -SumBy(s, Magnitude)
    ensures SumBy(s, Magnitude) >= 0.0
    decreases |s|
  {
    if |s| > 0 {
      assert s[0] in s;
      SumOfOutflows(s[1..]);
    }
  }

  /** With outflows signed, "Total Saídas" is the sum of the outflow magnitudes. */
  lemma SaidasAreMagnitudes(rows: seq<Movement>)
    requires OutflowsSigned(rows)
    ensures TotalSaidas(rows) == SumBy(Keep(rows, IsFlow(Saida)), Magnitude)
  {
    SumOfOutflows(Keep(rows, IsFlow(Saida)));
  }

  /** On a table where every row is tagged and outflows are signed, the net sum
      of `Quantidade` is inflow minus outflow. */
  lemma NetFlow(rows: seq<Movement>)
    requires forall m :: m in rows ==> m.direction.Some?
    requires OutflowsSigned(rows)
    ensures SumBy(rows, Quantity) == TotalEntradas(rows) - TotalSaidas(rows)
  {
    var e := IsFlow(Entrada);
    var s := IsFlow(Saida);
    forall x | x in rows
      ensures Either(e, s)(x)
    {
      assert x.direction.value == Entrada || x.direction.value == Saida;
    }
    KeepAll(rows, Either(e, s));
    KeepDisjointSum(rows, e, s, Quantity);
    SaidasAreMagnitudes(rows);
    SumOfOutflows(Keep(rows, s));
  }

  /** A merged table, filtered or not, is fully tagged with its outflows signed,
      so its net `Quantidade` is "Total Entradas" minus "Total Saídas". */
  lemma MergedNetFlow(entrada: seq<Movement>, saida: seq<Movement>, projects: set<string>, start: int, end: int)
    ensures SumBy(Merge(entrada, saida), Quantity)
         == TotalEntradas(Merge(entrada, saida)) - TotalSaidas(Merge(entrada, saida))
    ensures var f := ApplyFilters(Merge(entrada, saida), projects, start, end);
            SumBy(f, Quantity) == TotalEntradas(f) - TotalSaidas(f)
  {
    var r := Merge(entrada, saida);
    var f := ApplyFilters(r, projects, start, end);
    assert forall m :: m in r ==> m.direction.Some? && (m.direction == Some(Saida) ==> m.quantity <= 0.0);
    NetFlow(r);
    NetFlow(f);
  }

  /** Filtering a sheet and then tagging it is tagging and then filtering:
      the filter looks only at project and timestamp, which tagging keeps. */
  lemma FilterTagged(s: seq<Movement>, dir: Direction, projects: set<string>, start: int, end: int)
    ensures ApplyFilters(TagAll(s, dir), projects, start, end) == TagAll(ApplyFilters(s, projects, start, end), dir)
  {
    KeepTagged(s, dir, Mask(projects, start, end));
  }

  lemma {:induction false} KeepTagged(s: seq<Movement>, dir: Direction, p: Movement -> bool)
    requires forall m :: p(TagRow(m, dir)) == p(m)
    ensures Keep(TagAll(s, dir), p) == TagAll(Keep(s, p), dir)
    decreases |s|
  {
    if |s| > 0 {
      KeepTagged(s[1..], dir, p);
      assert TagAll(s, dir)[1..] == TagAll(s[1..], dir);
    }
  }

  /** `apply_filters` on the merged table is the merge of the filtered sheets. */
  lemma FilterMerge(entrada: seq<Movement>, saida: seq<Movement>, projects: set<string>, start: int, end: int)
    ensures ApplyFilters(Merge(entrada, saida), projects, start, end)
         == Merge(ApplyFilters(entrada, projects, start, end), ApplyFilters(saida, projects, start, end))
  {
    KeepAppend(TagAll(entrada, Entrada), TagAll(saida, Saida), Mask(projects, start, end));
    FilterTagged(entrada, Entrada, projects, start, end);
    FilterTagged(saida, Saida, projects, start, end);
  }

  /** Tagging keeps every quantity's magnitude, and every entrada quantity as is. */
  lemma {:induction false} TaggedSums(s: seq<Movement>)
    ensures SumBy(TagAll(s, Entrada), Quantity) == SumBy(s, Quantity)
    ensures SumBy(TagAll(s, Saida), Magnitude) == SumBy(s, Magnitude)
    decreases |s|
  {
    if |s| > 0 {
      TaggedSums(s[1..]);
      assert TagAll(s, Entrada)[1..] == TagAll(s[1..], Entrada);
      assert TagAll(s, Saida)[1..] == TagAll(s[1..], Saida);
    }
  }

  /** The inflow metric of a merged table is the entrada sheet's sum. */
  lemma MergedEntradas(entrada: seq<Movement>, saida: seq<Movement>)
    ensures TotalEntradas(Merge(entrada, saida)) == SumBy(entrada, Quantity)
  {
    var te := TagAll(entrada, Entrada);
    var ts := TagAll(saida, Saida);
    KeepAppend(te, ts, IsFlow(Entrada));
    KeepAll(te, IsFlow(Entrada));
    KeepNone(ts, IsFlow(Entrada));
    assert Keep(te + ts, IsFlow(Entrada)) == te;
    TaggedSums(entrada);
  }

  /** The outflow metric of a merged table is the sum of the saída sheet's
      magnitudes, whatever signs that sheet used. */
  lemma MergedSaidas(entrada: seq<Movement>, saida: seq<Movement>)
    ensures TotalSaidas(Merge(entrada, saida)) == SumBy(saida, Magnitude)
  {
    var te := TagAll(entrada, Entrada);
    var ts := TagAll(saida, Saida);
    KeepAppend(te, ts, IsFlow(Saida));
    KeepNone(te, IsFlow(Saida));
    KeepAll(ts, IsFlow(Saida));
    assert Keep(te + ts, IsFlow(Saida)) == ts;
    TaggedSums(saida);
    SumOfOutflows(ts);
  }

  /** Both metrics of a merged table. */
  lemma MergedTotals(entrada: seq<Movement>, saida: seq<Movement>)
    ensures TotalEntradas(Merge(entrada, saida)) == SumBy(entrada, Quantity)
    ensures TotalSaidas(Merge(entrada, saida)) == SumBy(saida, Magnitude)
  {
    MergedEntradas(entrada, saida);
    MergedSaidas(entrada, saida);
  }

  /** The headline metrics after the project and period filters: the selected
      entrada rows' sum and the selected saída rows' magnitudes. */
  lemma FilteredTotals(entrada: seq<Movement>, saida: seq<Movement>, projects: set<string>, start: int, end: int)
    ensures TotalEntradas(ApplyFilters(Merge(entrada, saida), projects, start, end))
         == SumBy(ApplyFilters(entrada, projects, start, end), Quantity)
    ensures TotalSaidas(ApplyFilters(Merge(entrada, saida), projects, start, end))
         == SumBy(ApplyFilters(saida, projects, start, end), Magnitude)
  {
    FilterMerge(entrada, saida, projects, start, end);
    MergedTotals(ApplyFilters(entrada, projects, start, end), ApplyFilters(saida, projects, start, end));
  }

  /** "% Crítico": critical items per covered item, in percent; 0 when the
      coverage table is empty. */
  function PercentCritical(totalCritical: real, rows: nat): (r: real)
    ensures rows == 0 ==> r == 0.0
    ensures 0.0 <= totalCritical <= rows as real ==> 0.0 <= r <= 100.0
    ensures rows > 0 && totalCritical == rows as real ==> r == 100.0
    ensures rows > 0 ==> r * (rows as real) == totalCritical * 100.0
  {
    if rows > 0 then
      var n := rows as real;
      var share := totalCritical / n;
      assert share * n == totalCritical;
      assert totalCritical == n ==> share == 1.0;
      assert share * 100.0 * n == share * n * 100.0;
      share * 100.0
    else 0.0
  }

  /** One critical item among four covered items is 25 percent. */
  lemma OneInFourIsAQuarter()
    ensures PercentCritical(1.0, 4) == 25.0
  {
    assert PercentCritical(1.0, 4) * 4.0 == 100.0;
  }

  /** The percentage is linear in the critical count: splitting the critical
      items into two parts splits the percentage the same way. */
  lemma PercentCriticalAdds(a: real, b: real, rows: nat)
    ensures PercentCritical(a + b, rows) == PercentCritical(a, rows) + PercentCritical(b, rows)
  {
    if rows > 0 {
      SharesAdd(PercentCritical(a, rows), PercentCritical(b, rows), PercentCritical(a + b, rows), a, b, rows as real);
    }
  }

  /** Three values that scale `a`, `b` and `a + b` by the same positive
      factor `n` add up. */
  lemma SharesAdd(pa: real, pb: real, pab: real, a: real, b: real, n: real)
    requires n > 0.0
    requires pa * n == a * 100.0 && pb * n == b * 100.0 && pab * n == (a + b) * 100.0
    ensures pab == pa + pb
  {
    var e := pab - pa - pb;
    assert e * n == pab * n - pa * n - pb * n;
    assert e * n == 0.0;
  }


  /** "Período (dias)": the whole days between the earliest and the latest
      movement (`timedelta.days`); an empty table has none. */
  function PeriodDays(rows: seq<Movement>): (r: Option<int>)
    ensures r.Some? <==> |rows| > 0
    ensures r.Some? ==> r.value >= 0
    ensures r.Some? ==> forall i, j :: 0 <= i < |rows| && 0 <= j < |rows| ==>
                          rows[j].time - rows[i].time < (r.value + 1) * SecondsPerDay
    ensures r.Some? ==> exists i, j :: && 0 <= i < |rows| && 0 <= j < |rows|
                                       && r.value * SecondsPerDay <= rows[j].time - rows[i].time
  {
    if |rows| == 0 then None
    else
      var first := Aggregates.Earliest(rows);
      var last := Aggregates.Latest(rows);
      var d := (last - first) / SecondsPerDay;
      assert first <= rows[0].time <= last;
      Some(d)
  }

  /** The period is the whole days between the earliest and the latest timestamp. */
  lemma PeriodIsSpan(rows: seq<Movement>)
    requires |rows| > 0
    ensures PeriodDays(rows).value == (Aggregates.Latest(rows) - Aggregates.Earliest(rows)) / SecondsPerDay
  {
  }

  /** Narrowing the table by a filter never lengthens the reported period. */
  lemma PeriodShrinks(rows: seq<Movement>, projects: set<string>, start: int, end: int)
    requires |ApplyFilters(rows, projects, start, end)| > 0
    ensures PeriodDays(ApplyFilters(rows, projects, start, end)).value <= PeriodDays(rows).value
  {
    var f := ApplyFilters(rows, projects, start, end);
    var lo := Aggregates.Earliest(f);
    var hi := Aggregates.Latest(f);
    var i :| 0 <= i < |f| && f[i].time == lo;
    var j :| 0 <= j < |f| && f[j].time == hi;
    var a :| 0 <= a < |rows| && rows[a] == f[i];
    var b :| 0 <= b < |rows| && rows[b] == f[j];
    assert Aggregates.Earliest(rows) <= lo;
    assert hi <= Aggregates.Latest(rows);
    PeriodIsSpan(rows);
    PeriodIsSpan(f);
    DivideMonotone(hi - lo, Aggregates.Latest(rows) - Aggregates.Earliest(rows));
  }

  lemma DivideMonotone(x: int, y: int)
    requires 0 <= x <= y
    ensures x / SecondsPerDay <= y / SecondsPerDay
  {
  }

  /** "Linhas de Projeto": `nunique()` of the project column. */
  function ProjectCount(rows: seq<Movement>): (n: nat)
    ensures n == |set m | m in rows :: m.project|
    ensures n <= |rows|
    ensures |rows| > 0 ==> n >= 1
  {
    var u := PeakReport.Unique(PeakReport.ProjectColumn(rows));
    DistinctCard(u);
    assert (set x | x in u) == (set m | m in rows :: m.project) by {
      forall x | x in u
        ensures x in (set m | m in rows :: m.project)
      {
        var c := PeakReport.ProjectColumn(rows);
        var k :| 0 <= k < |c| && c[k] == x;
        assert rows[k] in rows;
      }
      forall m | m in rows
        ensures m.project in u
      {
        var c := PeakReport.ProjectColumn(rows);
        var k :| 0 <= k < |rows| && rows[k] == m;
        assert c[k] == m.project;
      }
    }
    ProjectsBound(rows);
    assert |rows| > 0 ==> |u| >= 1 by {
      if |rows| > 0 {
        assert rows[0].project in (set m | m in rows :: m.project);
      }
    }
    |u|
  }

  /** A list without repetition has as many distinct elements as entries. */
  lemma {:induction false} DistinctCard(u: seq<string>)
    requires forall i, j :: 0 <= i < j < |u| ==> u[i] != u[j]
    ensures |set x | x in u| == |u|
    decreases |u|
  {
    if |u| > 0 {
      DistinctCard(u[1..]);
      assert (set x | x in u) == (set x | x in u[1..]) + {u[0]};
      assert u[0] !in u[1..];
    }
  }

  /** No more projects than rows. */
  lemma {:induction false} ProjectsBound(rows: seq<Movement>)
    ensures |set m | m in rows :: m.project| <= |rows|
    decreases |rows|
  {
    if |rows| > 0 {
      ProjectsBound(rows[1..]);
      assert (set m | m in rows :: m.project) == (set m | m in rows[1..] :: m.project) + {rows[0].project};
    }
  }
}
