/** The record types the movement pipeline works on, and the calendar fields
    derived from a timestamp.

    A timestamp is a whole number of seconds since 1970-01-01 00:00:00 in the
    spreadsheet's own (naive, zone-less) local time.  A calendar date is the
    number of whole days since that epoch. */
module Records {

  datatype Option<T> = None | Some(value: T)

  /** The movement direction column `Tipo_Movimento`. */
  datatype Direction = Entrada | Saida

  const SecondsPerHour: int := 3600
  const SecondsPerDay: int := 86400

  /** English weekday names in the order Monday..Sunday, as `day_name()` spells them. */
  const WeekdayNames: seq<string> :=
    ["Monday", "Tuesday", "Wednesday", "Thursday", "Friday", "Saturday", "Sunday"]

  /** A spreadsheet cell of the `Data Movimento` column: text to be parsed, a value
      the spreadsheet already stores as a date-time, or an empty cell (NaT). */
  datatype Cell = Text(text: string) | Stamp(time: int) | Missing

  /** One raw row of a movement sheet.  The other columns (`Linha MAE`,
      `Semiacabado`, `Código Movimento`, `Movimento`, `Área`) are carried along
      unchanged in `rest`. */
  datatype RawRow = RawRow(project: string, stamp: Cell, quantity: string, rest: seq<string>)

  /** One normalised movement: the parsed timestamp and quantity plus the derived
      columns `Dia`, `Hora` and `Dia_Semana`; `direction` is the tag the dashboard
      merge adds (`None` before that). */
  datatype Movement = Movement(
    project: string,
    time: int,
    quantity: real,
    day: int,
    hour: int,
    weekday: string,
    direction: Option<Direction>,
    rest: seq<string>)

  /** The `Quantidade` column, as a weight to sum. */
  function Quantity(m: Movement): real
  {
    m.quantity
  }

  /** `dt.floor('H')`: the start of the hour containing `t`. */
  function HourFloor(t: int): (h: int)
    ensures h % SecondsPerHour == 0
    ensures h <= t < h + SecondsPerHour
  {
    t - t % SecondsPerHour
  }

  /** `dt.date`: the calendar day containing `t`. */
  function DateOf(t: int): (d: int)
    ensures d * SecondsPerDay <= t < (d + 1) * SecondsPerDay
  {
    t / SecondsPerDay
  }

  /** `dt.hour`: the hour of the day. */
  function HourOfDay(t: int): (h: int)
    ensures 0 <= h <= 23
    ensures DateOf(t) * SecondsPerDay + h * SecondsPerHour <= t
    ensures t < DateOf(t) * SecondsPerDay + (h + 1) * SecondsPerHour
  {
    (t % SecondsPerDay) / SecondsPerHour
  }

  /** `dt.day`: the day of the month, by the proleptic Gregorian
      days-to-civil conversion (March-based years, 400-year eras). */
  function DayOfMonth(t: int): (d: int)
    ensures 1 <= d <= 31
  {
    var z := DateOf(t) + 719468;
    var era := z / 146097;
    var doe := z - era * 146097;
    var yoe := (doe - doe / 1460 + doe / 36524 - doe / 146096) / 365;
    var doy := doe - (365 * yoe + yoe / 4 - yoe / 100);
    var mp := (5 * doy + 2) / 153;
    DayFromDayOfYear(doy, mp)
  }

  /** The day of the month of the `doy`-th day of a March-based year, given its
      month index `mp` (0 = March). */
  function DayFromDayOfYear(doy: int, mp: int): (d: int)
    requires mp == (5 * doy + 2) / 153
    ensures 1 <= d <= 31
  {
    assert 153 * mp <= 5 * doy + 2 < 153 * mp + 153;
    var start := (153 * mp + 2) / 5;
    assert 5 * start <= 153 * mp + 2 < 5 * start + 5;
    doy - start + 1
  }

  /** Position of the weekday of `t` in Monday..Sunday: day 4 of the epoch
      (1970-01-05) was a Monday, so the index is the distance to it modulo 7. */
  function WeekdayIndex(t: int): (i: nat)
    ensures i < 7
    ensures (DateOf(t) - 4 - i) % 7 == 0
  {
    (DateOf(t) + 3) % 7
  }

  /** `dt.day_name()`. */
  function WeekdayName(t: int): (name: string)
    ensures name in WeekdayNames
    ensures DayOrder(name) == WeekdayIndex(t)
  {
    WeekdayNames[WeekdayIndex(t)]
  }

  /** `dias_ordem.index(x) if x in dias_ordem else 7`: the Monday-first position
      of a weekday name, 7 for a name that is not one. */
  function DayOrder(name: string): (k: nat)
    ensures k <= 7
    ensures k < 7 <==> name in WeekdayNames
    ensures k < 7 ==> WeekdayNames[k] == name
  {
    if name == "Monday" then 0
    else if name == "Tuesday" then 1
    else if name == "Wednesday" then 2
    else if name == "Thursday" then 3
    else if name == "Friday" then 4
    else if name == "Saturday" then 5
    else if name == "Sunday" then 6
    else 7
  }

  /** The row a timestamp and a quantity give once the calendar columns are derived. */
  function Derive(project: string, t: int, q: real, rest: seq<string>): (m: Movement)
    ensures m.project == project && m.time == t && m.quantity == q && m.rest == rest
    ensures 0 <= m.hour <= 23 && 1 <= m.day <= 31
    ensures m.weekday in WeekdayNames && m.direction == None
    ensures WellFormed(m)
  {
    Movement(project, t, q, DayOfMonth(t), HourOfDay(t), WeekdayName(t), None, rest)
  }

  // ---------------------------------------------------------------------------
  // An independent reference for the calendar: a civil date counted forward
  // year by year and month by month, with the Gregorian leap rule.

  predicate IsLeapYear(y: int)
  {
    y % 4 == 0 && (y % 100 != 0 || y % 400 == 0)
  }

  /** The number of days in month `m` (1 = January) of year `y`. */
  function DaysInMonth(y: int, m: int): (n: int)
    requires 1 <= m <= 12
    ensures 28 <= n <= 31
    ensures m == 2 ==> (n == 29 <==> IsLeapYear(y))
  {
    if m == 2 then (if IsLeapYear(y) then 29 else 28)
    else if m == 4 || m == 6 || m == 9 || m == 11 then 30
    else 31
  }

  /** Leap years among the years 1 .. y-1 (or minus those among y .. 0). */
  function LeapsBefore(y: int): int
  {
    (y - 1) / 4 - (y - 1) / 100 + (y - 1) / 400
  }

  /** Days in the months of year `y` before month `m`. */
  function DaysBeforeMonth(y: int, m: int): (n: int)
    requires 1 <= m <= 12
    ensures 0 <= n <= 335
    ensures m == 1 ==> n == 0
    ensures m > 1 ==> n == DaysBeforeMonth(y, m - 1) + DaysInMonth(y, m - 1)
  {
    CumulativeDays[m - 1] + (if m > 2 && IsLeapYear(y) then 1 else 0)
  }

  /** Days before each month of a common year. */
  const CumulativeDays: seq<int> := [0, 31, 59, 90, 120, 151, 181, 212, 243, 273, 304, 334]

  /** The day index of the civil date `y`-`m`-`d`, counted from 1970-01-01. */
  function DaysFromCivil(y: int, m: int, d: int): int
    requires 1 <= m <= 12
  {
    365 * (y - 1970) + (LeapsBefore(y) - LeapsBefore(1970)) + DaysBeforeMonth(y, m) + d - 1
  }

  /** Noon of a civil date, as a timestamp. */
  function NoonOf(y: int, m: int, d: int): int
    requires 1 <= m <= 12
  {
    DaysFromCivil(y, m, d) * SecondsPerDay + 12 * SecondsPerHour
  }

  /** Noon of the day with index `z` falls on that day. */
  lemma NoonDate(z: int)
    ensures DateOf(z * SecondsPerDay + 12 * SecondsPerHour) == z
  {
  }

  /** The weekday of a time on the day with index `z`, with `z + 3` split
      into whole weeks and a remainder. */
  lemma WeekdayAt(t: int, z: int, weeks: int, wd: int)
    requires DateOf(t) == z
    requires z + 3 == 7 * weeks + wd && 0 <= wd < 7
    ensures WeekdayName(t) == WeekdayNames[wd]
  {
    assert WeekdayIndex(t) == (z + 3) % 7 == wd;
  }

  /** The steps of `DayOfMonth` for a time on the day with index `z`. */
  lemma DayOfMonthAt(t: int, z: int, era: int, doe: int, yoe: int, doy: int, mp: int)
    requires DateOf(t) == z
    requires era == (z + 719468) / 146097
    requires doe == z + 719468 - era * 146097
    requires yoe == (doe - doe / 1460 + doe / 36524 - doe / 146096) / 365
    requires doy == doe - (365 * yoe + yoe / 4 - yoe / 100)
    requires mp == (5 * doy + 2) / 153
    ensures DayOfMonth(t) == DayFromDayOfYear(doy, mp)
  {
  }

  /** The steps of `DayOfMonth` and `WeekdayName` at noon of a civil date
      whose day index is `z`, each given as a value, so that a concrete date
      can be checked one step at a time. */
  lemma CivilSteps(y: int, m: int, d: int, z: int, weeks: int, wd: int,
                    era: int, doe: int, yoe: int, doy: int, mp: int)
    requires 1 <= m <= 12 && DaysFromCivil(y, m, d) == z
    requires z + 3 == 7 * weeks + wd && 0 <= wd < 7
    requires era == (z + 719468) / 146097
    requires doe == z + 719468 - era * 146097
    requires yoe == (doe - doe / 1460 + doe / 36524 - doe / 146096) / 365
    requires doy == doe - (365 * yoe + yoe / 4 - yoe / 100)
    requires mp == (5 * doy + 2) / 153
    ensures DayOfMonth(NoonOf(y, m, d)) == DayFromDayOfYear(doy, mp)
    ensures WeekdayName(NoonOf(y, m, d)) == WeekdayNames[wd]
  {
    var t := NoonOf(y, m, d);
    assert t == z * SecondsPerDay + 12 * SecondsPerHour;
    NoonDate(z);
    DayOfMonthAt(t, z, era, doe, yoe, doy, mp);
    WeekdayAt(t, z, weeks, wd);
  }

  /** `dt.day` and `dt.day_name()` agree with the reference calendar on the
      dates where a calendar goes wrong most easily. */
  /** The epoch: 1970-01-01, a Thursday. */
  lemma Civil1970_01_01()
    ensures DayOfMonth(NoonOf(1970, 1, 1)) == 1
    ensures WeekdayName(NoonOf(1970, 1, 1)) == "Thursday"
  {
    CivilSteps(1970, 1, 1, 0, 0, 3, 4, 135080, 369, 306, 10);
    assert DayFromDayOfYear(306, 10) == 1;
    assert WeekdayNames[3] == "Thursday";
  }

  /** New Year: 2025-01-01, a Wednesday. */
  lemma Civil2025_01_01()
    ensures DayOfMonth(NoonOf(2025, 1, 1)) == 1
    ensures WeekdayName(NoonOf(2025, 1, 1)) == "Wednesday"
  {
    CivilSteps(2025, 1, 1, 20089, 2870, 2, 5, 9072, 24, 306, 10);
    assert DayFromDayOfYear(306, 10) == 1;
    assert WeekdayNames[2] == "Wednesday";
  }

  /** A leap day: 2024-02-29, a Thursday. */
  lemma Civil2024_02_29()
    ensures DayOfMonth(NoonOf(2024, 2, 29)) == 29
    ensures WeekdayName(NoonOf(2024, 2, 29)) == "Thursday"
  {
    CivilSteps(2024, 2, 29, 19782, 2826, 3, 5, 8765, 23, 365, 11);
    assert DayFromDayOfYear(365, 11) == 29;
    assert WeekdayNames[3] == "Thursday";
  }

  /** The day before the epoch: 1969-12-31, a Wednesday. */
  lemma Civil1969_12_31()
    ensures DayOfMonth(NoonOf(1969, 12, 31)) == 31
    ensures WeekdayName(NoonOf(1969, 12, 31)) == "Wednesday"
  {
    CivilSteps(1969, 12, 31, -1, 0, 2, 4, 135079, 369, 305, 9);
    assert DayFromDayOfYear(305, 9) == 31;
    assert WeekdayNames[2] == "Wednesday";
  }

  /** The leap day of a 400-year era: 2000-02-29, a Tuesday. */
  lemma Civil2000_02_29()
    ensures DayOfMonth(NoonOf(2000, 2, 29)) == 29
    ensures WeekdayName(NoonOf(2000, 2, 29)) == "Tuesday"
  {
    CivilSteps(2000, 2, 29, 11016, 1574, 1, 4, 146096, 399, 365, 11);
    assert DayFromDayOfYear(365, 11) == 29;
    assert WeekdayNames[1] == "Tuesday";
  }

  /** A century year without a leap day: 1900-03-01, a Thursday. */
  lemma Civil1900_03_01()
    ensures DayOfMonth(NoonOf(1900, 3, 1)) == 1
    ensures WeekdayName(NoonOf(1900, 3, 1)) == "Thursday"
  {
    CivilSteps(1900, 3, 1, -25508, -3644, 3, 4, 109572, 300, 0, 0);
    assert DayFromDayOfYear(0, 0) == 1;
    assert WeekdayNames[3] == "Thursday";
  }

  /** The last February day of a century year without a leap day: 2100-02-28, a Sunday. */
  lemma Civil2100_02_28()
    ensures DayOfMonth(NoonOf(2100, 2, 28)) == 28
    ensures WeekdayName(NoonOf(2100, 2, 28)) == "Sunday"
  {
    CivilSteps(2100, 2, 28, 47540, 6791, 6, 5, 36523, 99, 364, 11);
    assert DayFromDayOfYear(364, 11) == 28;
    assert WeekdayNames[6] == "Sunday";
  }

  /** The day after it: 2100-03-01, a Monday. */
  lemma Civil2100_03_01()
    ensures DayOfMonth(NoonOf(2100, 3, 1)) == 1
    ensures WeekdayName(NoonOf(2100, 3, 1)) == "Monday"
  {
    CivilSteps(2100, 3, 1, 47541, 6792, 0, 5, 36524, 100, 0, 0);
    assert DayFromDayOfYear(0, 0) == 1;
    assert WeekdayNames[0] == "Monday";
  }

  /** Every derived calendar column agrees with the row's timestamp. */
  ghost predicate WellFormed(m: Movement)
  {
    && m.day == DayOfMonth(m.time)
    && m.hour == HourOfDay(m.time)
    && m.weekday == WeekdayName(m.time)
  }
}
