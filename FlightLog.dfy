/**
 * The flight-log import of main/views.py: `add_date_time` and `save_flight_file` (the two
 * header fields, the row test, the anchoring of the six instants of a leg on its date and the
 * whitespace normalisation of its number and airports).
 */
module FlightLog {
  import opened Wrappers
  import opened PyValues
  import opened Calendar
  import opened Text
  import opened Flights
  import opened Collecting

  /**
   * How `isnotnan` is applied to ON. As written it is given the whole ON column, which is never
   * a NaN float; PerCell is the evidently intended test of the row's own cell.
   */
  datatype NanCheck = WholeColumn | PerCell

  /** The cells of one body row of the log, as pandas hands them over. */
  datatype Row = Row(
    date: PyValue,        // "Date TdL"
    depTime: PyValue,     // "Dep..1"
    arrTime: PyValue,     // "Arr..1"
    num: PyValue,         // "N volCause IRG"
    depAirport: PyValue,  // "Dep."
    arrAirport: PyValue,  // "Arr."
    gateOut: PyValue,     // "OUT"
    wheelsOff: PyValue,   // "OFF"
    wheelsOn: PyValue,    // "ON"
    gateIn: PyValue)      // "IN"

  /**
   * What the import is given besides the file: the year typed by the user, `dateparser.parse`
   * (an instant in seconds, or None) and `strptime(text, format)` (the parsed clock time).
   */
  datatype Env = Env(year: string, parseDate: string -> Option<int>, strptime: (string, string) -> Option<int>)

  /** A FlightFile together with the legs stored for it. */
  datatype FlightFile = FlightFile(filename: string, matricule: string, model: string, legs: seq<Leg>)

  const HourMinuteSecond: string := "%H:%M:%S"
  const HourMinute: string := "%H:%M"

  // ---------------------------------------------------------------- add_date_time

  /**
   * `add_date_time(date, time_str, tformat)`: the clock time read from time_str, anchored on
   * date's day by `date_inc`; the UTC tag leaves the instant unchanged. None when strptime raises.
   */
  function AddDateTime(strptime: (string, string) -> Option<int>, date: int, timeStr: string, format: string): Option<int>
  {
    match strptime(timeStr, format)
    case None => None
    case Some(time) => Some(DateInc(date, time))
  }

  /**
   * t shows the clock time of `time`, on date's day or the next, within [date - 1h, date + 1 day),
   * and lies on the next day exactly when that clock time on date's day is more than an hour
   * before date.
   */
  predicate AnchoredTo(date: int, t: int, time: int)
  {
    && TimeOfDay(t) == TimeOfDay(time)
    && (Day(t) == Day(date) || Day(t) == Day(date) + 1)
    && date - SecondsPerHour <= t < date + SecondsPerDay
    && (Day(t) == Day(date) + 1 <==> Combine(Day(date), TimeOfDay(time)) < date - SecondsPerHour)
  }

  /** Anchoring pins the instant: `date_inc`'s value is the only one anchored on date. */
  lemma AnchoredUnique(date: int, t: int, time: int)
    requires AnchoredTo(date, t, time)
    ensures t == DateInc(date, time)
  {
    var u := DateInc(date, time);
    DateIncProperties(date, time);
    assert Day(t) == Day(u) && TimeOfDay(t) == TimeOfDay(u);
    assert t == Combine(Day(t), TimeOfDay(t)) && u == Combine(Day(u), TimeOfDay(u));
  }

  /** add_date_time fails exactly when strptime does, and otherwise anchors the clock time on date. */
  lemma AddDateTimeAnchors(strptime: (string, string) -> Option<int>, date: int, timeStr: string, format: string)
    ensures AddDateTime(strptime, date, timeStr, format).Some? <==> strptime(timeStr, format).Some?
    ensures AddDateTime(strptime, date, timeStr, format).Some? ==>
      AnchoredTo(date, AddDateTime(strptime, date, timeStr, format).value, strptime(timeStr, format).value)
  {
    if strptime(timeStr, format).Some? {
      DateIncProperties(date, strptime(timeStr, format).value);
    }
  }

  /** `s[-5::]`: the last five characters, or all of a shorter string. */
  function LastFive(s: string): string
  {
    PySliceFrom(s, -5)
  }

  lemma LastFiveSuffix(s: string)
    ensures |LastFive(s)| == if |s| < 5 then |s| else 5
    ensures LastFive(s) == s[|s| - |LastFive(s)|..]
  {
  }

  // ---------------------------------------------------------------- header

  /** `cell.split(' ')[-1]` of a header cell; a cell that is not a string raises. */
  function HeaderField(v: PyValue): Result<string, Error>
  {
    if v.Str? then Success(LastField(v.s, ' ')) else Failure(MalformedFile)
  }

  /** `getattr(file_, "name", "input")`. */
  function FileName(name: Option<string>): string
  {
    if name.Some? then name.value else "input"
  }

  // ---------------------------------------------------------------- one row

  /** The value isnotnan is given for ON: the column as written, the row's cell when corrected. */
  function OnTested(check: NanCheck, column: seq<PyValue>, row: Row): PyValue
  {
    if check == WholeColumn then Column(column) else row.wheelsOn
  }

  /** The ON column of the body. */
  function OnColumn(rows: seq<Row>): seq<PyValue>
  {
    seq(|rows|, i requires 0 <= i < |rows| => rows[i].wheelsOn)
  }

  /** The ON cell is a string starting with 'A'. */
  predicate StartsWithA(v: PyValue)
  {
    v.Str? && |v.s| > 0 && v.s[0] == 'A'
  }

  /**
   * The row test: OFF and the tested ON value are not NaN, then the first character of the ON
   * cell is 'A'. Indexing an ON cell that is not a non-empty string raises.
   */
  function Selected(check: NanCheck, column: seq<PyValue>, row: Row): Result<bool, Error>
  {
    if !IsNotNan(row.wheelsOff) || !IsNotNan(OnTested(check, column, row)) then Success(false)
    else if row.wheelsOn.Str? && |row.wheelsOn.s| > 0 then Success(row.wheelsOn.s[0] == 'A')
    else Failure(MalformedFile)
  }

  /** Every cell the leg is built from is a string (`+`, `split` and slicing raise on a float). */
  predicate AllText(row: Row)
  {
    && row.date.Str? && row.depTime.Str? && row.arrTime.Str? && row.num.Str?
    && row.depAirport.Str? && row.arrAirport.Str?
    && row.gateOut.Str? && row.wheelsOff.Str? && row.wheelsOn.Str? && row.gateIn.Str?
  }

  /** The text given to dateparser: date, departure time and year, separated by spaces. */
  function DateText(row: Row, year: string): string
    requires AllText(row)
  {
    row.date.s + " " + row.depTime.s + " " + year
  }

  /** The five clock readings of a row: arrival as HH:MM:SS, OUT/OFF/ON/IN from their last five characters. */
  function Clocks(row: Row, env: Env): seq<Option<int>>
    requires AllText(row)
  {
    [ env.strptime(row.arrTime.s, HourMinuteSecond),
      env.strptime(LastFive(row.gateOut.s), HourMinute),
      env.strptime(LastFive(row.wheelsOff.s), HourMinute),
      env.strptime(LastFive(row.wheelsOn.s), HourMinute),
      env.strptime(LastFive(row.gateIn.s), HourMinute) ]
  }

  /** The Flight built from a selected row, or the exception that aborts the import. */
  function BuildLeg(row: Row, env: Env): Result<Leg, Error>
  {
    if !AllText(row) then Failure(MalformedFile)
    else
      match env.parseDate(DateText(row, env.year))
      case None => Failure(MalformedFile)
      case Some(date) =>
        var arr := AddDateTime(env.strptime, date, row.arrTime.s, HourMinuteSecond);
        var out := AddDateTime(env.strptime, date, LastFive(row.gateOut.s), HourMinute);
        var off := AddDateTime(env.strptime, date, LastFive(row.wheelsOff.s), HourMinute);
        var on := AddDateTime(env.strptime, date, LastFive(row.wheelsOn.s), HourMinute);
        var gateIn := AddDateTime(env.strptime, date, LastFive(row.gateIn.s), HourMinute);
        if arr.None? || out.None? || off.None? || on.None? || gateIn.None? then Failure(MalformedFile)
        else Success(Leg(
          NormalizeSpace(row.num.s), NormalizeSpace(row.depAirport.s), NormalizeSpace(row.arrAirport.s),
          date, arr.value, out.value, off.value, on.value, gateIn.value))
  }

  /** One loop iteration: a leg, nothing for a row that is not selected, or the exception. */
  function LegOf(check: NanCheck, column: seq<PyValue>, row: Row, env: Env): Result<Option<Leg>, Error>
  {
    match Selected(check, column, row)
    case Failure(e) => Failure(e)
    case Success(false) => Success(None)
    case Success(true) =>
      match BuildLeg(row, env)
      case Failure(e) => Failure(e)
      case Success(leg) => Success(Some(leg))
  }

  /**
   * A row gives a leg exactly when its OFF cell is not NaN, its ON cell starts with 'A' and the
   * leg can be built; the leg is then the one built. This holds for both NaN checks.
   */
  lemma LegOfSelects(check: NanCheck, column: seq<PyValue>, row: Row, env: Env)
    ensures LegOf(check, column, row, env).Success? && LegOf(check, column, row, env).value.Some?
      <==> IsNotNan(row.wheelsOff) && StartsWithA(row.wheelsOn) && BuildLeg(row, env).Success?
    ensures LegOf(check, column, row, env).Success? && LegOf(check, column, row, env).value.Some? ==>
      LegOf(check, column, row, env).value.value == BuildLeg(row, env).value
  {
  }

  /**
   * A leg is built exactly when every cell is text, the date parses and the five clock readings
   * parse. It departs at the parsed date, each other instant shows its clock reading anchored
   * on that date, and the number and airports are normalised without losing a character.
   */
  lemma BuildLegSpec(row: Row, env: Env)
    ensures BuildLeg(row, env).Success? <==>
      AllText(row) && env.parseDate(DateText(row, env.year)).Some?
      && forall k | 0 <= k < 5 :: Clocks(row, env)[k].Some?
    ensures BuildLeg(row, env).Success? ==>
      var leg, date, c := BuildLeg(row, env).value, env.parseDate(DateText(row, env.year)).value, Clocks(row, env);
      && leg.timeDep == date
      && AnchoredTo(date, leg.timeArr, c[0].value)
      && AnchoredTo(date, leg.timeOut, c[1].value)
      && AnchoredTo(date, leg.timeOff, c[2].value)
      && AnchoredTo(date, leg.timeOn, c[3].value)
      && AnchoredTo(date, leg.timeIn, c[4].value)
      && Normalized(leg.num) && NonSpace(leg.num) == NonSpace(row.num.s)
      && Normalized(leg.airportFrom) && NonSpace(leg.airportFrom) == NonSpace(row.depAirport.s)
      && Normalized(leg.airportTo) && NonSpace(leg.airportTo) == NonSpace(row.arrAirport.s)
  {
    if AllText(row) && env.parseDate(DateText(row, env.year)).Some? {
      var date, c := env.parseDate(DateText(row, env.year)).value, Clocks(row, env);
      assert c[0] == env.strptime(row.arrTime.s, HourMinuteSecond);
      assert c[1] == env.strptime(LastFive(row.gateOut.s), HourMinute);
      assert c[2] == env.strptime(LastFive(row.wheelsOff.s), HourMinute);
      assert c[3] == env.strptime(LastFive(row.wheelsOn.s), HourMinute);
      assert c[4] == env.strptime(LastFive(row.gateIn.s), HourMinute);
      AddDateTimeAnchors(env.strptime, date, row.arrTime.s, HourMinuteSecond);
      AddDateTimeAnchors(env.strptime, date, LastFive(row.gateOut.s), HourMinute);
      AddDateTimeAnchors(env.strptime, date, LastFive(row.wheelsOff.s), HourMinute);
      AddDateTimeAnchors(env.strptime, date, LastFive(row.wheelsOn.s), HourMinute);
      AddDateTimeAnchors(env.strptime, date, LastFive(row.gateIn.s), HourMinute);
      NormalizeSpaceProperties(row.num.s);
      NormalizeSpaceProperties(row.depAirport.s);
      NormalizeSpaceProperties(row.arrAirport.s);
    }
  }

  // ---------------------------------------------------------------- the whole body

  /** The loop over the body rows, as one step per row. */
  function Step(check: NanCheck, rows: seq<Row>, env: Env): Row -> Result<Option<Leg>, Error>
  {
    row => LegOf(check, OnColumn(rows), row, env)
  }

  /** The legs of the first k rows, or the exception that aborts the import. */
  function Import(check: NanCheck, rows: seq<Row>, env: Env, k: nat): Result<seq<Leg>, Error>
    requires k <= |rows|
  {
    Collect(rows, Step(check, rows, env), k)
  }

  /** `save_flight_file`: the header fields, then the legs of every body row. */
  function FlightFileOf(check: NanCheck, name: Option<string>, header: (PyValue, PyValue), rows: seq<Row>, env: Env)
    : Result<FlightFile, Error>
  {
    var matricule, model := HeaderField(header.0), HeaderField(header.1);
    if matricule.Failure? || model.Failure? then Failure(MalformedFile)
    else
      match Import(check, rows, env, |rows|)
      case Failure(_) => Failure(MalformedFile)
      case Success(legs) => Success(FlightFile(FileName(name), matricule.value, model.value, legs))
  }

  /** As written: the year-rollover test compares with an old date the loop never sets. */
  predicate Later(oldDate: Option<int>, date: int)
  {
    oldDate.Some? && oldDate.value > date
  }

  /**
   * `save_flight_file(file_, year, user)`: None (a Failure) when a header cell or any selected
   * row cannot be read; otherwise the file with one leg per selected row, in row order.
   */
  method SaveFlightFile(check: NanCheck, name: Option<string>, header: (PyValue, PyValue), rows: seq<Row>, env: Env)
    returns (r: Result<FlightFile, Error>)
    ensures r == FlightFileOf(check, name, header, rows, env)
  {
    var matricule := HeaderField(header.0);
    var model := HeaderField(header.1);
    if matricule.Failure? || model.Failure? {
      return Failure(MalformedFile);
    }
    var column := OnColumn(rows);
    var flights: seq<Leg> := [];
    var oldDate: Option<int> := None;
    for idx := 0 to |rows|
      invariant Import(check, rows, env, idx) == Success(flights)
    {
      var row := rows[idx];
      if IsNotNan(row.wheelsOff) && IsNotNan(OnTested(check, column, row)) {
        if !(row.wheelsOn.Str? && |row.wheelsOn.s| > 0) {
          CollectFailsAt(rows, Step(check, rows, env), idx);
          return Failure(MalformedFile);
        }
        if row.wheelsOn.s[0] == 'A' {
          var leg := BuildLeg(row, env);
          if leg.Failure? {
            CollectFailsAt(rows, Step(check, rows, env), idx);
            return Failure(MalformedFile);
          }
          var date := leg.value.timeDep;
          if env.year != "" && Later(oldDate, date) {
            // `date.replace(year=...)` builds a new instant and discards it
          }
          flights := flights + [leg.value];
        }
      }
    }
    r := Success(FlightFile(FileName(name), matricule.value, model.value, flights));
  }

  // ---------------------------------------------------------------- properties of the import

  /**
   * A successful import holds one leg per row that gives one, in row order: leg j comes from row
   * Kept[j], a row whose OFF cell is not NaN and whose ON cell starts with 'A', and it departs
   * at that row's parsed date with its numbers and airports normalised.
   */
  lemma ImportedLeg(check: NanCheck, rows: seq<Row>, env: Env, j: nat)
    requires Import(check, rows, env, |rows|).Success?
    requires j < |Import(check, rows, env, |rows|).value|
    ensures var legs, ks := Import(check, rows, env, |rows|).value, Kept(rows, Step(check, rows, env), |rows|);
      && |legs| == |ks| && ks[j] < |rows|
      && var row := rows[ks[j]];
      && IsNotNan(row.wheelsOff) && StartsWithA(row.wheelsOn)
      && BuildLeg(row, env).Success? && legs[j] == BuildLeg(row, env).value
      && legs[j].timeDep == env.parseDate(DateText(row, env.year)).value
      && Normalized(legs[j].num) && Normalized(legs[j].airportFrom) && Normalized(legs[j].airportTo)
  {
    var f := Step(check, rows, env);
    CollectSpec(rows, f, |rows|);
    var ks := Kept(rows, f, |rows|);
    var row := rows[ks[j]];
    LegOfSelects(check, OnColumn(rows), row, env);
    BuildLegSpec(row, env);
  }

  /** Every row that gives a leg is represented, and rows that give none leave no trace. */
  lemma ImportComplete(check: NanCheck, rows: seq<Row>, env: Env, i: nat)
    requires Import(check, rows, env, |rows|).Success? && i < |rows|
    ensures IsNotNan(rows[i].wheelsOff) && StartsWithA(rows[i].wheelsOn)
      <==> i in Kept(rows, Step(check, rows, env), |rows|)
  {
    var f := Step(check, rows, env);
    CollectSpec(rows, f, |rows|);
    KeptSpec(rows, f, |rows|);
    LegOfSelects(check, OnColumn(rows), rows[i], env);
  }

  /** Rows fit for either NaN check: each lacks OFF or ON, or has an ON text and builds when it starts with 'A'. */
  predicate Readable(rows: seq<Row>, env: Env)
  {
    forall i | 0 <= i < |rows| ::
      || rows[i].wheelsOff == FloatNaN
      || rows[i].wheelsOn == FloatNaN
      || (rows[i].wheelsOn.Str? && |rows[i].wheelsOn.s| > 0
          && (rows[i].wheelsOn.s[0] == 'A' ==> BuildLeg(rows[i], env).Success?))
  }

  /**
   * As written, isnotnan of the whole ON column is always true, so a row with OFF present and
   * ON missing reaches `df["ON"][idx][0]` on a NaN float, which raises and loses the whole log.
   */
  lemma WholeColumnAbortsOnMissingOn(rows: seq<Row>, env: Env, i: nat)
    requires i < |rows| && IsNotNan(rows[i].wheelsOff) && rows[i].wheelsOn == FloatNaN
    ensures Import(WholeColumn, rows, env, |rows|).Failure?
  {
    IsNotNanExactly(Column(OnColumn(rows)), OnColumn(rows));
    CollectFailsAt(rows, Step(WholeColumn, rows, env), i);
  }

  /** Testing the ON cell itself skips a row whose ON is missing. */
  lemma PerCellSkipsMissingOn(rows: seq<Row>, env: Env, i: nat)
    requires i < |rows| && rows[i].wheelsOn == FloatNaN
    ensures LegOf(PerCell, OnColumn(rows), rows[i], env) == Success(None)
  {
  }

  /** With the per-cell test every readable log imports, keeping exactly the A rows with OFF present. */
  lemma PerCellImports(rows: seq<Row>, env: Env)
    requires Readable(rows, env)
    ensures Import(PerCell, rows, env, |rows|).Success?
    ensures forall i | 0 <= i < |rows| ::
      i in Kept(rows, Step(PerCell, rows, env), |rows|) <==> IsNotNan(rows[i].wheelsOff) && StartsWithA(rows[i].wheelsOn)
  {
    var f := Step(PerCell, rows, env);
    forall i | 0 <= i < |rows|
      ensures f(rows[i]).Success?
    {
      LegOfSelects(PerCell, OnColumn(rows), rows[i], env);
    }
    CollectSpec(rows, f, |rows|);
    forall i | 0 <= i < |rows|
      ensures i in Kept(rows, f, |rows|) <==> IsNotNan(rows[i].wheelsOff) && StartsWithA(rows[i].wheelsOn)
    {
      ImportComplete(PerCell, rows, env, i);
    }
  }
}
