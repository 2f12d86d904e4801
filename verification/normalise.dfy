/** Column validation and the temporal normalisation of a movement sheet
    (`validate_columns`, `process_temporal_data`), and the upload step that
    chains them (app.py).

    The three timestamp formats `%d/%m/%Y %H:%M:%S`, `%d/%m/%Y %H:%M` and the
    day-first free-form parse are opaque partial parsers `string -> Option<int>`;
    the quantity conversion `pd.to_numeric` is an opaque `string -> Option<real>`. */
module Normalise {
  import opened Records
  import opened Seqs

  /** The columns a movement sheet must carry. */
  const RequiredColumns: seq<string> :=
    ["Linha MAE", "Linha ATO", "Semiacabado", "Quantidade",
     "Data Movimento", "Código Movimento", "Movimento", "Área"]

  /** `validate_columns`: the required names absent from the header, in the
      order they are required.  The table itself is not an argument, so it
      cannot change. */
  function ValidateColumns(header: seq<string>, required: seq<string>): (missing: seq<string>)
    ensures forall c :: c in missing <==> c in required && c !in header
    ensures IsSubsequence(missing, required)
    ensures |missing| == 0 <==> forall c :: c in required ==> c in header
  {
    var r := Keep(required, c => c !in header);
    assert forall c :: c in r ==> c in required && c !in header by {
      forall c | c in r
        ensures c in required && c !in header
      {
        var i :| 0 <= i < |r| && r[i] == c;
      }
    }
    assert forall c :: c in required && c !in header ==> c in r by {
      forall c | c in required && c !in header
        ensures c in r
      {
        var i :| 0 <= i < |required| && required[i] == c;
      }
    }
    r
  }

  /** `pd.to_datetime(..., errors='coerce')` on one cell: text goes through the
      parser, a value that already is a date-time is kept, an empty cell stays empty. */
  function ToDatetime(c: Cell, parse: string -> Option<int>): (r: Cell)
    ensures !r.Text?
    ensures c.Stamp? ==> r == c
    ensures c.Missing? ==> r.Missing?
    ensures c.Text? ==> (r.Stamp? <==> parse(c.text).Some?)
    ensures c.Text? && r.Stamp? ==> parse(c.text) == Some(r.time)
  {
    match c
    case Text(s) => (match parse(s) case Some(t) => Stamp(t) case None => Missing)
    case Stamp(t) => Stamp(t)
    case Missing => Missing
  }

  /** The conversion applied to a whole column. */
  function Coerce(col: seq<Cell>, parse: string -> Option<int>): (r: seq<Cell>)
    ensures |r| == |col|
    ensures forall i :: 0 <= i < |r| ==> r[i] == ToDatetime(col[i], parse)
  {
    seq(|col|, i requires 0 <= i < |col| => ToDatetime(col[i], parse))
  }

  /** `.isna().all()`; true of an empty column. */
  predicate AllMissing(col: seq<Cell>)
  {
    forall i :: 0 <= i < |col| ==> col[i].Missing?
  }

  /** A cell that the parser turns into a date-time. */
  predicate Recoverable(c: Cell, parse: string -> Option<int>)
  {
    c.Stamp? || (c.Text? && parse(c.text).Some?)
  }

  function StampColumn(rows: seq<RawRow>): (col: seq<Cell>)
    ensures |col| == |rows|
    ensures forall i :: 0 <= i < |rows| ==> col[i] == rows[i].stamp
  {
    seq(|rows|, i requires 0 <= i < |rows| => rows[i].stamp)
  }

  lemma CoerceAllMissing(col: seq<Cell>, parse: string -> Option<int>)
    ensures AllMissing(Coerce(col, parse)) <==> forall i :: 0 <= i < |col| ==> !Recoverable(col[i], parse)
  {
  }

  /** Lines 44-64 as the code stands: each fallback converts the column that the
      previous attempt has already coerced, in which no text is left.  A
      column loses all its timestamps exactly when the FIRST format recovers
      none of them; the fallback formats have no effect. */
  function ParseStampsAsWritten(raw: seq<Cell>, f1: string -> Option<int>, f2: string -> Option<int>, f3: string -> Option<int>): (col: seq<Cell>)
    ensures |col| == |raw|
    ensures forall i :: 0 <= i < |col| ==> !col[i].Text?
    ensures AllMissing(col) <==> forall i :: 0 <= i < |raw| ==> !Recoverable(raw[i], f1)
    ensures col == Coerce(raw, f1)
  {
    var c1 := Coerce(raw, f1);
    var c2 := if AllMissing(c1) then Coerce(c1, f2) else c1;
    var c3 := if AllMissing(c2) then Coerce(c2, f3) else c2;
    CoerceAllMissing(raw, f1);
    assert c2 == c1;
    assert c3 == c1;
    c3
  }

  /** The fallback the code evidently intends: the first format under which
      not every row fails is accepted, each format being tried on the raw
      text.  A column loses all its timestamps only when no format recovers
      any of them. */
  function ParseStamps(raw: seq<Cell>, f1: string -> Option<int>, f2: string -> Option<int>, f3: string -> Option<int>): (col: seq<Cell>)
    ensures |col| == |raw|
    ensures forall i :: 0 <= i < |col| ==> !col[i].Text?
    ensures AllMissing(col) <==>
      forall i :: 0 <= i < |raw| ==> !Recoverable(raw[i], f1) && !Recoverable(raw[i], f2) && !Recoverable(raw[i], f3)
    ensures !AllMissing(Coerce(raw, f1)) ==> col == Coerce(raw, f1)
    ensures AllMissing(Coerce(raw, f1)) && !AllMissing(Coerce(raw, f2)) ==> col == Coerce(raw, f2)
    ensures AllMissing(Coerce(raw, f1)) && AllMissing(Coerce(raw, f2)) ==> col == Coerce(raw, f3)
  {
    CoerceAllMissing(raw, f1);
    CoerceAllMissing(raw, f2);
    CoerceAllMissing(raw, f3);
    var c1 := Coerce(raw, f1);
    if !AllMissing(c1) then c1
    else
      var c2 := Coerce(raw, f2);
      if !AllMissing(c2) then c2
      else Coerce(raw, f3)
  }

  /** One raw row, given its coerced timestamp cell: kept with its derived
      columns when both the timestamp and the quantity are present. */
  function Convert(row: RawRow, c: Cell, parseQty: string -> Option<real>): (r: Option<Movement>)
    ensures r.Some? <==> c.Stamp? && parseQty(row.quantity).Some?
    ensures r.Some? ==> && r.value.project == row.project
                        && r.value.rest == row.rest
                        && c == Stamp(r.value.time)
                        && parseQty(row.quantity) == Some(r.value.quantity)
                        && r.value.direction == None
                        && WellFormed(r.value)
  {
    match c
    case Stamp(t) =>
      (match parseQty(row.quantity)
       case Some(q) => Some(Derive(row.project, t, q, row.rest))
       case None => None)
    case _ => None
  }

  /** The two `dropna` steps: the rows that convert, in sheet order. */
  function Parsed(rows: seq<RawRow>, col: seq<Cell>, parseQty: string -> Option<real>): (ms: seq<Movement>)
    requires |col| == |rows|
    ensures |ms| <= |rows|
    ensures |ms| == |rows| <==> forall i :: 0 <= i < |rows| ==> Convert(rows[i], col[i], parseQty).Some?
    ensures forall m :: m in ms ==> exists i :: 0 <= i < |rows| && Convert(rows[i], col[i], parseQty) == Some(m)
    ensures forall i :: 0 <= i < |rows| && Convert(rows[i], col[i], parseQty).Some? ==>
      Convert(rows[i], col[i], parseQty).value in ms
    ensures forall m :: multiset(ms)[m] == multiset(ConvertAll(rows, col, parseQty))[Some(m)]
  {
    var c := ConvertAll(rows, col, parseQty);
    var ms := Somes(c);
    SomesMembers(c, ms);
    ms
  }

  function ConvertAll(rows: seq<RawRow>, col: seq<Cell>, parseQty: string -> Option<real>): (c: seq<Option<Movement>>)
    requires |col| == |rows|
    ensures |c| == |rows|
    ensures forall i :: 0 <= i < |rows| ==> c[i] == Convert(rows[i], col[i], parseQty)
    decreases |rows|
  {
    if |rows| == 0 then []
    else [Convert(rows[0], col[0], parseQty)] + ConvertAll(rows[1..], col[1..], parseQty)
  }

  /** The present values of a column of optional values, in order: each value
      as many times as it is present. */
  function Somes(s: seq<Option<Movement>>): (r: seq<Movement>)
    ensures |r| <= |s|
    ensures |r| == |s| <==> forall i :: 0 <= i < |s| ==> s[i].Some?
    ensures forall x :: multiset(r)[x] == multiset(s)[Some(x)]
    decreases |s|
  {
    if |s| == 0 then []
    else
      var tail := Somes(s[1..]);
      assert s == [s[0]] + s[1..];
      assert forall i :: 1 <= i < |s| ==> s[i] == s[1..][i - 1];
      if s[0].Some? then [s[0].value] + tail else tail
  }

  /** Counts that agree make the members agree. */
  lemma SomesMembers(s: seq<Option<Movement>>, r: seq<Movement>)
    requires forall x :: multiset(r)[x] == multiset(s)[Some(x)]
    ensures forall x :: x in r ==> exists i :: 0 <= i < |s| && s[i] == Some(x)
    ensures forall i :: 0 <= i < |s| && s[i].Some? ==> s[i].value in r
  {
    forall x | x in r
      ensures exists i :: 0 <= i < |s| && s[i] == Some(x)
    {
      assert multiset(r)[x] > 0;
      assert Some(x) in multiset(s);
      var i :| 0 <= i < |s| && s[i] == Some(x);
    }
    forall i | 0 <= i < |s| && s[i].Some?
      ensures s[i].value in r
    {
      assert s[i] in multiset(s);
      assert multiset(r)[s[i].value] > 0;
    }
  }

  /** Normalised rows sorted by timestamp. */
  ghost predicate SortedByTime(ms: seq<Movement>)
  {
    forall i, j :: 0 <= i < j < |ms| ==> ms[i].time <= ms[j].time
  }

  /** Everything after the timestamp column is coerced: drop the rows whose
      timestamp or quantity is missing, derive the calendar columns, sort by
      timestamp (`sort_values` leaves the order of equal timestamps open; this
      sort keeps sheet order among them). */
  function Finish(rows: seq<RawRow>, col: seq<Cell>, parseQty: string -> Option<real>): (ms: seq<Movement>)
    requires |col| == |rows|
    ensures SortedByTime(ms)
    ensures multiset(ms) == multiset(Parsed(rows, col, parseQty))
    ensures |ms| <= |rows|
    ensures |ms| == |rows| <==> forall i :: 0 <= i < |rows| ==> col[i].Stamp? && parseQty(rows[i].quantity).Some?
    ensures forall m :: m in ms ==> && WellFormed(m) && 0 <= m.hour <= 23 && 1 <= m.day <= 31
    ensures forall m :: m in ms ==> exists i :: && 0 <= i < |rows|
                                                && col[i] == Stamp(m.time)
                                                && parseQty(rows[i].quantity) == Some(m.quantity)
                                                && m.project == rows[i].project
                                                && m.rest == rows[i].rest
  {
    var parsed := Parsed(rows, col, parseQty);
    var ms := SortBy(parsed, (m: Movement) => m.time as real);
    assert |ms| == |multiset(ms)| == |multiset(parsed)| == |parsed|;
    assert forall m :: m in ms ==> m in parsed by {
      forall m | m in ms
        ensures m in parsed
      {
        assert m in multiset(ms);
      }
    }
    assert forall m :: m in parsed ==> 0 <= m.hour <= 23 && 1 <= m.day <= 31 by {
      forall m | m in parsed
        ensures 0 <= m.hour <= 23 && 1 <= m.day <= 31
      {
        var i :| 0 <= i < |rows| && Convert(rows[i], col[i], parseQty) == Some(m);
        assert m == Derive(rows[i].project, m.time, m.quantity, rows[i].rest);
      }
    }
    ms
  }

  /** The rows that `Finish` keeps are none exactly when no row has both a
      timestamp and a quantity. */
  lemma FinishEmpty(rows: seq<RawRow>, col: seq<Cell>, parseQty: string -> Option<real>)
    requires |col| == |rows|
    ensures Finish(rows, col, parseQty) == [] <==>
      forall i :: 0 <= i < |rows| ==> !(col[i].Stamp? && parseQty(rows[i].quantity).Some?)
  {
    var parsed := Parsed(rows, col, parseQty);
    var ms := Finish(rows, col, parseQty);
    assert |ms| == |multiset(ms)| == |multiset(parsed)| == |parsed|;
    if ms != [] {
      var m := parsed[0];
      var i :| 0 <= i < |rows| && Convert(rows[i], col[i], parseQty) == Some(m);
    }
  }

  /** `process_temporal_data` as the code stands: the rows whose timestamp the
      FIRST format recovers and whose quantity converts, with their calendar
      columns, sorted by time.  It is empty exactly when no row has both. */
  function NormaliseAsWritten(rows: seq<RawRow>, f1: string -> Option<int>, f2: string -> Option<int>,
                              f3: string -> Option<int>, parseQty: string -> Option<real>): (ms: seq<Movement>)
    ensures SortedByTime(ms)
    ensures |ms| <= |rows|
    ensures multiset(ms) == multiset(Parsed(rows, Coerce(StampColumn(rows), f1), parseQty))
    ensures forall m :: m in ms ==> WellFormed(m)
    ensures forall m :: m in ms ==> exists i :: && 0 <= i < |rows|
                                                && Recoverable(rows[i].stamp, f1)
                                                && parseQty(rows[i].quantity) == Some(m.quantity)
                                                && m.project == rows[i].project
                                                && m.rest == rows[i].rest
    ensures ms == [] <==>
      forall i :: 0 <= i < |rows| ==> !(Recoverable(rows[i].stamp, f1) && parseQty(rows[i].quantity).Some?)
  {
    var raw := StampColumn(rows);
    var col := ParseStampsAsWritten(raw, f1, f2, f3);
    assert forall i :: 0 <= i < |rows| ==> (col[i].Stamp? <==> Recoverable(rows[i].stamp, f1));
    FinishEmpty(rows, col, parseQty);
    Finish(rows, col, parseQty)
  }

  /** `process_temporal_data` with the fallback formats applied to the raw
      text: the rows that convert under the first format that recovers any
      timestamp, with their calendar columns, sorted by time. */
  function Normalise(rows: seq<RawRow>, f1: string -> Option<int>, f2: string -> Option<int>,
                     f3: string -> Option<int>, parseQty: string -> Option<real>): (ms: seq<Movement>)
    ensures SortedByTime(ms)
    ensures |ms| <= |rows|
    ensures multiset(ms) == multiset(Parsed(rows, ParseStamps(StampColumn(rows), f1, f2, f3), parseQty))
    ensures forall m :: m in ms ==> && WellFormed(m) && 0 <= m.hour <= 23 && 1 <= m.day <= 31
    ensures forall m :: m in ms ==> exists i :: && 0 <= i < |rows|
                                                && parseQty(rows[i].quantity) == Some(m.quantity)
                                                && m.project == rows[i].project
                                                && m.rest == rows[i].rest
    ensures var col := ParseStamps(StampColumn(rows), f1, f2, f3);
      ms == [] <==> forall i :: 0 <= i < |rows| ==> !(col[i].Stamp? && parseQty(rows[i].quantity).Some?)
  {
    var col := ParseStamps(StampColumn(rows), f1, f2, f3);
    FinishEmpty(rows, col, parseQty);
    Finish(rows, col, parseQty)
  }

  /** As the code stands, when the first format recovers no timestamp the
      result is empty, whatever the fallback formats would have parsed. */
  lemma FirstFormatDecides(rows: seq<RawRow>, f1: string -> Option<int>, f2: string -> Option<int>,
                           f3: string -> Option<int>, parseQty: string -> Option<real>)
    requires forall i :: 0 <= i < |rows| ==> !Recoverable(rows[i].stamp, f1)
    ensures NormaliseAsWritten(rows, f1, f2, f3, parseQty) == []
  {
    var col := ParseStampsAsWritten(StampColumn(rows), f1, f2, f3);
    assert AllMissing(col);
  }

  /** As the code stands, the fallback formats never influence the result. */
  lemma FallbacksIgnored(rows: seq<RawRow>, f1: string -> Option<int>, f2: string -> Option<int>,
                         f3: string -> Option<int>, g2: string -> Option<int>, g3: string -> Option<int>,
                         parseQty: string -> Option<real>)
    ensures NormaliseAsWritten(rows, f1, f2, f3, parseQty) == NormaliseAsWritten(rows, f1, g2, g3, parseQty)
  {
    var raw := StampColumn(rows);
    assert ParseStampsAsWritten(raw, f1, f2, f3) == ParseStampsAsWritten(raw, f1, g2, g3);
  }

  /** A sheet written without seconds, and parsers for it: the first format
      fails on its only row, the second parses it. */
  const SheetWithoutSeconds: seq<RawRow> := [RawRow("L1", Text("01/01/2025 08:00"), "10", [])]

  function WithSeconds(s: string): Option<int> { None }

  function WithoutSeconds(s: string): Option<int>
  {
    if s == "01/01/2025 08:00" then Some(1735718400) else None
  }

  function TenUnits(s: string): Option<real>
  {
    if s == "10" then Some(10.0) else None
  }

  /** As written that sheet normalises to nothing; with the intended fallback
      its row is kept. */
  lemma FallbackCounterexample()
    ensures NormaliseAsWritten(SheetWithoutSeconds, WithSeconds, WithoutSeconds, WithoutSeconds, TenUnits) == []
    ensures |Normalise(SheetWithoutSeconds, WithSeconds, WithoutSeconds, WithoutSeconds, TenUnits)| == 1
  {
    AsWrittenDropsSheet();
    IntendedKeepsSheet();
  }

  lemma AsWrittenDropsSheet()
    ensures NormaliseAsWritten(SheetWithoutSeconds, WithSeconds, WithoutSeconds, WithoutSeconds, TenUnits) == []
  {
    FirstFormatDecides(SheetWithoutSeconds, WithSeconds, WithoutSeconds, WithoutSeconds, TenUnits);
  }

  lemma IntendedKeepsSheet()
    ensures |Normalise(SheetWithoutSeconds, WithSeconds, WithoutSeconds, WithoutSeconds, TenUnits)| == 1
  {
    var rows := SheetWithoutSeconds;
    var raw := StampColumn(rows);
    assert raw[0] == Text("01/01/2025 08:00");
    assert Coerce(raw, WithSeconds)[0] == Missing;
    assert Coerce(raw, WithoutSeconds)[0] == Stamp(1735718400);
    var col := ParseStamps(raw, WithSeconds, WithoutSeconds, WithoutSeconds);
    assert col[0] == Stamp(1735718400);
    assert TenUnits(rows[0].quantity).Some?;
    assert |Finish(rows, col, TenUnits)| == |rows|;
  }

  /** What the upload page does with a sheet: report the missing columns, or
      report that no timestamp could be read, or go on with the normalised rows. */
  datatype Upload = MissingColumns(names: seq<string>) | TemporalError | Ready(rows: seq<Movement>)

  /** The upload step as the page runs it, on `process_temporal_data` as the
      code stands: the date error is reported exactly when every column is
      present and no row has a timestamp in the first format and a quantity. */
  function ProcessUpload(header: seq<string>, rows: seq<RawRow>, f1: string -> Option<int>,
                         f2: string -> Option<int>, f3: string -> Option<int>,
                         parseQty: string -> Option<real>): (u: Upload)
    ensures u.MissingColumns? <==> exists c :: c in RequiredColumns && c !in header
    ensures u.MissingColumns? ==> forall c :: c in u.names <==> c in RequiredColumns && c !in header
    ensures u.TemporalError? <==>
      && (forall c :: c in RequiredColumns ==> c in header)
      && (forall i :: 0 <= i < |rows| ==> !(Recoverable(rows[i].stamp, f1) && parseQty(rows[i].quantity).Some?))
    ensures u.Ready? ==> |u.rows| > 0 && u.rows == NormaliseAsWritten(rows, f1, f2, f3, parseQty)
  {
    var missing := ValidateColumns(header, RequiredColumns);
    if |missing| > 0 then MissingColumns(missing)
    else
      var ms := NormaliseAsWritten(rows, f1, f2, f3, parseQty);
      if |ms| == 0 then TemporalError else Ready(ms)
  }

  /** The same step on the corrected `process_temporal_data`. */
  function ProcessUploadCorrected(header: seq<string>, rows: seq<RawRow>, f1: string -> Option<int>,
                                  f2: string -> Option<int>, f3: string -> Option<int>,
                                  parseQty: string -> Option<real>): (u: Upload)
    ensures u.MissingColumns? <==> exists c :: c in RequiredColumns && c !in header
    ensures u.TemporalError? <==> (forall c :: c in RequiredColumns ==> c in header)
                                  && Normalise(rows, f1, f2, f3, parseQty) == []
    ensures u.Ready? ==> |u.rows| > 0 && u.rows == Normalise(rows, f1, f2, f3, parseQty)
  {
    var missing := ValidateColumns(header, RequiredColumns);
    if |missing| > 0 then MissingColumns(missing)
    else
      var ms := Normalise(rows, f1, f2, f3, parseQty);
      if |ms| == 0 then TemporalError else Ready(ms)
  }

  /** A complete sheet whose timestamps have no seconds gets the date error as
      the page runs ... */
  lemma UploadWithoutSeconds()
    ensures ProcessUpload(RequiredColumns, SheetWithoutSeconds, WithSeconds, WithoutSeconds, WithoutSeconds, TenUnits)
         == TemporalError
  {
    assert !Recoverable(SheetWithoutSeconds[0].stamp, WithSeconds);
  }

  /** ... and goes through with the corrected fallback. */
  lemma UploadWithoutSecondsCorrected()
    ensures ProcessUploadCorrected(RequiredColumns, SheetWithoutSeconds, WithSeconds, WithoutSeconds, WithoutSeconds, TenUnits).Ready?
  {
    IntendedKeepsSheet();
  }
}
