/**
 * The Hawk telemetry monitor of main/models.py (class DataHawk). Its file opens with a free
 * header that ends at the first line starting with a comma; after one more line come comma
 * separated rows whose measurements come in value/unit pairs, converted by `unitConv` and
 * scaled by the calibration Coefficient in force.
 */
module Hawk {
  import opened Wrappers
  import opened Text
  import opened Flights
  import opened Doses
  import opened UnitConversion
  import opened Calendar

  /**
   * The cells of a data row that the import reads, as the CSV reader hands them over: the
   * local instant of columns 1 and 2 (None when it does not parse), and the value and unit
   * cells of the voltage, current, temperature, gamma dose and dose equivalent.
   */
  datatype Row = Row(
    local: Option<int>,
    volt: real, voltUnit: string,
    current: real, currentUnit: string,
    temp: real, tempUnit: string,
    qfactor: real,
    gamma: real, gammaUnit: string,
    doseEqu: real, doseEquUnit: string)

  /** One line of the file: its text as `readline` returns it, and the same line as a CSV row. */
  datatype Line = Line(text: string, row: Row)

  /** A Coefficient of the device: the day it takes effect and the two LET factors. */
  datatype Coefficient = Coefficient(start: int, bas: real, haut: real)

  /** A DataHawk record. */
  datatype Sample = Sample(
    time: int, flight: Option<Leg>,
    volt: real, current: real, temp: real, qfactor: real,
    gamma: real, doseEqu: real, bas: real, haut: real)

  // ---------------------------------------------------------------- get_serial_num

  /** What the fourth `readline` returns: the fourth line, or "" past the end of the file. */
  function FourthLine(lines: seq<string>): string
  {
    if |lines| >= 4 then lines[3] else ""
  }

  /**
   * The serial number: the text after the last ':' of the fourth line, stripped, without its
   * first four and last four characters; the line must be ASCII.
   */
  function SerialNum(lines: seq<string>): (r: Result<string, Error>)
    ensures r.Success? <==> IsAscii(FourthLine(lines))
    ensures r.Success? ==> ':' !in r.value
    ensures r.Success? ==>
      var f := Strip(LastField(FourthLine(lines), ':'));
      && (|f| <= 8 ==> r.value == "")
      && (|f| > 8 ==> r.value == f[4..|f| - 4])
  {
    var s := FourthLine(lines);
    if !IsAscii(s) then Failure(MalformedFile)
    else
      var field := LastField(s, ':');
      var f := Strip(field);
      StripSpec(field);
      assert ':' !in f by {
        var a := |field| - |StripLeft(field)|;
        assert f == field[a..a + |f|];
      }
      var num := PySlice(f, 4, -4);
      assert |f| > 8 ==> num == f[4..|f| - 4];
      Success(num)
  }

  // ---------------------------------------------------------------- the header

  /** The header ends at line h: the first line that starts with ',', all lines before it read. */
  predicate IsHeaderEnd(lines: seq<string>, h: nat)
  {
    && h < |lines| && |lines[h]| > 0 && lines[h][0] == ','
    && forall j | 0 <= j < h :: |lines[j]| > 0 && lines[j][0] != ','
  }

  /**
   * The header end at or after line i, or None when the file ends first (`readline` returns
   * "" there, whose first character does not exist).
   */
  function HeaderFrom(lines: seq<string>, i: nat): Option<nat>
    decreases |lines| - i
  {
    if i >= |lines| || |lines[i]| == 0 then None
    else if lines[i][0] == ',' then Some(i)
    else HeaderFrom(lines, i + 1)
  }

  function HeaderEnd(lines: seq<string>): Option<nat>
  {
    HeaderFrom(lines, 0)
  }

  lemma {:induction false} HeaderFromIff(lines: seq<string>, i: nat, h: nat)
    requires i <= |lines|
    requires forall j | 0 <= j < i :: |lines[j]| > 0 && lines[j][0] != ','
    ensures HeaderFrom(lines, i) == Some(h) <==> IsHeaderEnd(lines, h)
    decreases |lines| - i
  {
    if i < |lines| && |lines[i]| > 0 && lines[i][0] != ',' {
      HeaderFromIff(lines, i + 1, h);
    }
  }

  /** HeaderEnd finds exactly the first line that starts with ','. */
  lemma HeaderEndIff(lines: seq<string>, h: nat)
    ensures HeaderEnd(lines) == Some(h) <==> IsHeaderEnd(lines, h)
  {
    HeaderFromIff(lines, 0, h);
  }

  /**
   * Reads lines up to the first one that starts with ','; None when a line before it does not
   * read or no line does.
   */
  method SkipHeader(lines: seq<string>) returns (r: Option<nat>)
    ensures r == HeaderEnd(lines)
  {
    var i := 0;
    while true
      invariant i <= |lines|
      invariant HeaderFrom(lines, i) == HeaderEnd(lines)
      decreases |lines| - i
    {
      if i == |lines| || |lines[i]| == 0 {
        return None;
      }
      if lines[i][0] == ',' {
        return Some(i);
      }
      i := i + 1;
    }
  }

  /** The CSV rows: everything after the header end and the line after it. */
  function Frame(lines: seq<Line>, h: nat): (rows: seq<Row>)
    ensures h + 2 <= |lines| ==> |rows| == |lines| - (h + 2)
    ensures forall k | 0 <= k < |rows| :: h + 2 + k < |lines| && rows[k] == lines[h + 2 + k].row
  {
    if h + 2 <= |lines| then seq(|lines| - (h + 2), k requires 0 <= k < |lines| - (h + 2) => lines[h + 2 + k].row)
    else []
  }

  function Texts(lines: seq<Line>): (t: seq<string>)
    ensures |t| == |lines| && forall k | 0 <= k < |lines| :: t[k] == lines[k].text
  {
    seq(|lines|, k requires 0 <= k < |lines| => lines[k].text)
  }

  // ---------------------------------------------------------------- the calibration in force

  /**
   * `Coefficient.objects.filter(start__lte=day, ...).last()` over the device's coefficients in
   * their stored order: the last one whose start is on or before the day.
   */
  function InForce(coefs: seq<Coefficient>, day: int): (r: Option<Coefficient>)
    ensures r.None? <==> forall i | 0 <= i < |coefs| :: coefs[i].start > day
    ensures r.Some? ==> exists i | 0 <= i < |coefs| ::
      coefs[i] == r.value && coefs[i].start <= day && forall j | i < j < |coefs| :: coefs[j].start > day
  {
    if |coefs| == 0 then None
    else if coefs[|coefs| - 1].start <= day then Some(coefs[|coefs| - 1])
    else
      var r := InForce(coefs[..|coefs| - 1], day);
      assert forall i | 0 <= i < |coefs| - 1 :: coefs[..|coefs| - 1][i] == coefs[i];
      r
  }

  /** Coefficients ordered by start, as the model's `ordering = ['start']` keeps them. */
  predicate ByStart(coefs: seq<Coefficient>)
  {
    forall i, j | 0 <= i < j < |coefs| :: coefs[i].start <= coefs[j].start
  }

  /** In start order, the coefficient in force is one with the latest start not after the day. */
  lemma InForceIsLatest(coefs: seq<Coefficient>, day: int, k: nat)
    requires ByStart(coefs) && k < |coefs| && coefs[k].start <= day
    ensures InForce(coefs, day).Some?
    ensures coefs[k].start <= InForce(coefs, day).value.start <= day
  {
    var i :| 0 <= i < |coefs| && coefs[i] == InForce(coefs, day).value && coefs[i].start <= day
      && forall j | i < j < |coefs| :: coefs[j].start > day;
    if k < i {
      assert coefs[k].start <= coefs[i].start;
    }
  }

  // ---------------------------------------------------------------- save_file

  /** The target units of the import: volt, microampere, degree Celsius, microgray, microsievert. */
  const Volt: string := "V"
  const MicroAmpere: string := MicroSign + "A"
  const Celsius: string := "C"
  const MicroGray: string := MicroSign + "G"
  const MicroSievert: string := MicroSign + "S"

  /** A value cell, its unit cell and the unit the import converts it to. */
  datatype Reading = Reading(value: real, unit: string, target: string)

  /** The five conversions of a row, in the order the import makes them. */
  function Readings(r: Row): seq<Reading>
  {
    [Reading(r.volt, r.voltUnit, Volt), Reading(r.current, r.currentUnit, MicroAmpere),
     Reading(r.temp, r.tempUnit, Celsius), Reading(r.gamma, r.gammaUnit, MicroGray),
     Reading(r.doseEqu, r.doseEquUnit, MicroSievert)]
  }

  /** `unitConv(value, unit, target)` on the stripped unit cell. */
  function Conv(t: PrefixTable, g: Reading): Result<real, Error>
  {
    UnitConv(t, g.value, Strip(g.unit), g.target)
  }

  /** The converted values, or the failure of the first conversion that fails. */
  function ConvAll(t: PrefixTable, gs: seq<Reading>): Result<seq<real>, Error>
    decreases |gs|, 1
  {
    if |gs| == 0 then Success([]) else ConvFirst(t, gs)
  }

  /** The first conversion, then the others. */
  function ConvFirst(t: PrefixTable, gs: seq<Reading>): Result<seq<real>, Error>
    requires |gs| > 0
    decreases |gs|, 0
  {
    var c := Conv(t, gs[0]);
    if c.Failure? then Failure(c.error)
    else
      var rest := ConvAll(t, gs[1..]);
      if rest.Failure? then rest else Success([c.value] + rest.value)
  }

  /** All conversions succeed exactly when each one does; otherwise a prefix was unknown. */
  lemma {:induction false} ConvAllSucceeds(t: PrefixTable, gs: seq<Reading>)
    ensures ConvAll(t, gs).Success? <==> forall k | 0 <= k < |gs| :: Conv(t, gs[k]).Success?
    ensures ConvAll(t, gs).Failure? ==> ConvAll(t, gs).error.UnknownPrefix?
    decreases |gs|
  {
    if |gs| > 0 {
      assert ConvAll(t, gs) == ConvFirst(t, gs);
      ConvAllSucceeds(t, gs[1..]);
      assert forall k | 1 <= k < |gs| :: gs[1..][k - 1] == gs[k];
    }
  }

  /** The k-th value of a successful run is that of the k-th conversion. */
  lemma {:induction false} ConvAllAt(t: PrefixTable, gs: seq<Reading>, k: nat)
    requires ConvAll(t, gs).Success? && k < |gs|
    ensures |ConvAll(t, gs).value| == |gs|
    ensures Conv(t, gs[k]).Success? && ConvAll(t, gs).value[k] == Conv(t, gs[k]).value
    decreases |gs|
  {
    assert ConvAll(t, gs) == ConvFirst(t, gs);
    var tail := gs[1..];
    if |tail| > 0 {
      ConvAllAt(t, tail, if k > 0 then k - 1 else 0);
    }
    assert ConvAll(t, gs).value == [Conv(t, gs[0]).value] + ConvAll(t, tail).value;
    if k > 0 {
      assert tail[k - 1] == gs[k];
    }
  }

  /**
   * The record of one data row, or the first failure in the order the row is processed: its
   * time, then the five conversions, then the missing coefficient. The record carries the
   * time shifted by the offset, the leg it falls in, `bas = gamma * bas_LET` and
   * `haut = (dose_equ - gamma) * haut_LET`.
   */
  function SampleOf(t: PrefixTable, r: Row, off: int, legs: seq<Leg>, coef: Option<Coefficient>): Result<Sample, Error>
  {
    if r.local.None? then Failure(MalformedFile)
    else
      var vs := ConvAll(t, Readings(r));
      if vs.Failure? then Failure(vs.error)
      else if coef.None? || |vs.value| != 5 then Failure(MissingCalibration)
      else
        var v, c, time := vs.value, coef.value, r.local.value - off;
        Success(Sample(time, FlightAt(legs, time), v[0], v[1], v[2], r.qfactor, v[3], v[4],
                       v[3] * c.bas, (v[4] - v[3]) * c.haut))
  }

  /**
   * A row converts exactly when its instant parses, its five units convert and a coefficient
   * is in force; it fails for want of a coefficient only when everything else succeeded.
   */
  lemma SampleOfConverts(t: PrefixTable, r: Row, off: int, legs: seq<Leg>, coef: Option<Coefficient>)
    ensures var s := SampleOf(t, r, off, legs, coef);
      && (s.Success? <==> r.local.Some? && coef.Some? && forall k | 0 <= k < 5 :: Conv(t, Readings(r)[k]).Success?)
      && (s == Failure(MissingCalibration) <==>
            r.local.Some? && coef.None? && forall k | 0 <= k < 5 :: Conv(t, Readings(r)[k]).Success?)
  {
    if r.local.Some? {
      ConvAllSucceeds(t, Readings(r));
      if ConvAll(t, Readings(r)).Success? {
        ConvAllAt(t, Readings(r), 0);
      }
    }
  }

  /**
   * The record's LET parts follow from its gamma dose and dose equivalent by coefficient c:
   * `bas_LET = gamma_dose * c.bas_LET`, `haut_LET = (dose_equ - gamma_dose) * c.haut_LET`.
   */
  predicate CalibratedBy(s: Sample, c: Coefficient)
  {
    s.bas == s.gamma * c.bas && s.haut == (s.doseEqu - s.gamma) * c.haut
  }

  /**
   * The record of a row holds its instant shifted by the offset, the leg that covers that
   * instant, its Q factor, and LET parts calibrated by the coefficient.
   */
  lemma SampleOfRecord(t: PrefixTable, r: Row, off: int, legs: seq<Leg>, coef: Option<Coefficient>)
    requires SampleOf(t, r, off, legs, coef).Success?
    ensures r.local.Some? && coef.Some?
    ensures var v, c := SampleOf(t, r, off, legs, coef).value, coef.value;
      && v.time == r.local.value - off && v.flight == FlightAt(legs, v.time) && v.qfactor == r.qfactor
      && CalibratedBy(v, c)
  {
    var vs := ConvAll(t, Readings(r)).value;
    var c, time := coef.value, r.local.value - off;
    var gamma, doseEqu := vs[3], vs[4];
    var bas, haut := gamma * c.bas, (doseEqu - gamma) * c.haut;
    assert SampleOf(t, r, off, legs, coef).value
      == Sample(time, FlightAt(legs, time), vs[0], vs[1], vs[2], r.qfactor, gamma, doseEqu, bas, haut);
  }

  /** The five measurements of a record are the row's cells converted by `unitConv`. */
  lemma SampleOfValues(t: PrefixTable, r: Row, off: int, legs: seq<Leg>, coef: Option<Coefficient>)
    requires SampleOf(t, r, off, legs, coef).Success?
    ensures var v, g := SampleOf(t, r, off, legs, coef).value, Readings(r);
      && Conv(t, g[0]).Success? && v.volt == Conv(t, g[0]).value
      && Conv(t, g[1]).Success? && v.current == Conv(t, g[1]).value
      && Conv(t, g[2]).Success? && v.temp == Conv(t, g[2]).value
      && Conv(t, g[3]).Success? && v.gamma == Conv(t, g[3]).value
      && Conv(t, g[4]).Success? && v.doseEqu == Conv(t, g[4]).value
  {
    var g := Readings(r);
    var vs := ConvAll(t, g).value;
    var c, time := coef.value, r.local.value - off;
    var bas, haut := vs[3] * c.bas, (vs[4] - vs[3]) * c.haut;
    assert SampleOf(t, r, off, legs, coef).value
      == Sample(time, FlightAt(legs, time), vs[0], vs[1], vs[2], r.qfactor, vs[3], vs[4], bas, haut);
    ConvAllAt(t, g, 0);
    ConvAllAt(t, g, 1);
    ConvAllAt(t, g, 2);
    ConvAllAt(t, g, 3);
    ConvAllAt(t, g, 4);
  }

  /** The records of rows 0 .. k - 1, or the failure of the first row that does not convert. */
  function Convert(t: PrefixTable, rows: seq<Row>, off: int, legs: seq<Leg>, coef: Option<Coefficient>, k: nat): Result<seq<Sample>, Error>
    requires k <= |rows|
  {
    if k == 0 then Success([])
    else
      var prev := Convert(t, rows, off, legs, coef, k - 1);
      if prev.Failure? then prev
      else
        var s := SampleOf(t, rows[k - 1], off, legs, coef);
        if s.Failure? then Failure(s.error) else Success(prev.value + [s.value])
  }

  /**
   * What `save_file` stores, or why it fails: every data row but the last converted, all of
   * them shifted by the UTC offset of the first row and scaled by the coefficient in force on
   * the first row's day.
   */
  function Samples(t: PrefixTable, lines: seq<Line>, zone: int -> int, legs: seq<Leg>, coefs: seq<Coefficient>): Result<seq<Sample>, Error>
  {
    var h := HeaderEnd(Texts(lines));
    if h.None? then Failure(MalformedFile)
    else
      var rows := Frame(lines, h.value);
      if |rows| == 0 || rows[0].local.None? then Failure(MalformedFile)
      else
        var date := rows[0].local.value;
        Convert(t, rows, zone(date), legs, InForce(coefs, Day(date)), |rows| - 1)
  }

  /** When row i is the first that fails, every longer conversion fails with its error. */
  lemma {:induction false} ConvertFailsAt(t: PrefixTable, rows: seq<Row>, off: int, legs: seq<Leg>, coef: Option<Coefficient>, i: nat, m: nat)
    requires i < m <= |rows| && Convert(t, rows, off, legs, coef, i).Success?
    requires SampleOf(t, rows[i], off, legs, coef).Failure?
    ensures Convert(t, rows, off, legs, coef, m) == Failure(SampleOf(t, rows[i], off, legs, coef).error)
    decreases m - i
  {
    if m > i + 1 {
      ConvertFailsAt(t, rows, off, legs, coef, i, m - 1);
    }
  }

  /** Once the header end is known, the import is decided by the CSV rows after it. */
  lemma SamplesOfFrame(t: PrefixTable, lines: seq<Line>, zone: int -> int, legs: seq<Leg>, coefs: seq<Coefficient>, h: nat)
    requires HeaderEnd(Texts(lines)) == Some(h)
    ensures var rows := Frame(lines, h);
      Samples(t, lines, zone, legs, coefs) ==
        if |rows| == 0 || rows[0].local.None? then Failure(MalformedFile)
        else Convert(t, rows, zone(rows[0].local.value), legs, InForce(coefs, Day(rows[0].local.value)), |rows| - 1)
  {
  }

  /** `save_file`: skip the header, read the first row's instant, then convert the rows. */
  method ParseFile(t: PrefixTable, lines: seq<Line>, zone: int -> int, legs: seq<Leg>, coefs: seq<Coefficient>)
    returns (r: Result<seq<Sample>, Error>)
    ensures r == Samples(t, lines, zone, legs, coefs)
  {
    var h := SkipHeader(Texts(lines));
    if h.None? {
      return Failure(MalformedFile);
    }
    var df := Frame(lines, h.value);
    SamplesOfFrame(t, lines, zone, legs, coefs, h.value);
    if |df| == 0 || df[0].local.None? {
      return Failure(MalformedFile);
    }
    var date := df[0].local.value;
    var utcOff := zone(date);
    var coef := InForce(coefs, Day(date));
    r := ConvertRows(t, df, utcOff, legs, coef);
  }

  /** The row loop of the import: one record per data row but the last. */
  method ConvertRows(t: PrefixTable, df: seq<Row>, utcOff: int, legs: seq<Leg>, coef: Option<Coefficient>)
    returns (r: Result<seq<Sample>, Error>)
    requires |df| > 0
    ensures r == Convert(t, df, utcOff, legs, coef, |df| - 1)
  {
    var data: seq<Sample> := [];
    for i := 0 to |df| - 1
      invariant Convert(t, df, utcOff, legs, coef, i) == Success(data)
    {
      var s := SampleOf(t, df[i], utcOff, legs, coef);
      if s.Failure? {
        ConvertFailsAt(t, df, utcOff, legs, coef, i, |df| - 1);
        return Failure(s.error);
      }
      data := data + [s.value];
    }
    return Success(data);
  }

  /**
   * The first k rows convert exactly when each of them does; the records are theirs, in row
   * order.
   */
  lemma {:induction false} ConvertSpec(t: PrefixTable, rows: seq<Row>, off: int, legs: seq<Leg>, coef: Option<Coefficient>, k: nat)
    requires k <= |rows|
    ensures Convert(t, rows, off, legs, coef, k).Success? <==>
      forall m | 0 <= m < k :: SampleOf(t, rows[m], off, legs, coef).Success?
    ensures Convert(t, rows, off, legs, coef, k).Success? ==>
      var v := Convert(t, rows, off, legs, coef, k).value;
      |v| == k && forall m | 0 <= m < k :: v[m] == SampleOf(t, rows[m], off, legs, coef).value
    decreases k
  {
    if k > 0 {
      ConvertSpec(t, rows, off, legs, coef, k - 1);
    }
  }

  predicate Calibrated(data: seq<Sample>, c: Coefficient)
  {
    forall k | 0 <= k < |data| :: CalibratedBy(data[k], c)
  }

  /**
   * An import that succeeds stores one record per data row but the last: row k's instant
   * shifted by the first row's UTC offset, with the leg that covers it.
   */
  lemma SamplesAnchored(t: PrefixTable, lines: seq<Line>, zone: int -> int, legs: seq<Leg>, coefs: seq<Coefficient>, h: nat)
    requires HeaderEnd(Texts(lines)) == Some(h) && Samples(t, lines, zone, legs, coefs).Success?
    ensures var rows, v := Frame(lines, h), Samples(t, lines, zone, legs, coefs).value;
      && |rows| > 0 && rows[0].local.Some? && |v| == |rows| - 1
      && forall k | 0 <= k < |v| ::
           && rows[k].local.Some?
           && v[k].time == rows[k].local.value - zone(rows[0].local.value)
           && v[k].flight == FlightAt(legs, v[k].time)
  {
    var rows := Frame(lines, h);
    var date := rows[0].local.value;
    var off, coef := zone(date), InForce(coefs, Day(date));
    ConvertSpec(t, rows, off, legs, coef, |rows| - 1);
    forall k | 0 <= k < |rows| - 1
      ensures var s := SampleOf(t, rows[k], off, legs, coef);
        && s.Success? && rows[k].local.Some?
        && s.value.time == rows[k].local.value - off && s.value.flight == FlightAt(legs, s.value.time)
    {
      SampleOfRecord(t, rows[k], off, legs, coef);
    }
  }

  /**
   * The records of an import that succeeds are all calibrated by the coefficient in force on
   * the first row's day, which exists as soon as one record is stored.
   */
  lemma SamplesCalibrated(t: PrefixTable, lines: seq<Line>, zone: int -> int, legs: seq<Leg>, coefs: seq<Coefficient>, h: nat)
    requires HeaderEnd(Texts(lines)) == Some(h) && Samples(t, lines, zone, legs, coefs).Success?
    requires |Samples(t, lines, zone, legs, coefs).value| > 0
    ensures var rows := Frame(lines, h);
      && |rows| > 0 && rows[0].local.Some? && InForce(coefs, Day(rows[0].local.value)).Some?
      && Calibrated(Samples(t, lines, zone, legs, coefs).value, InForce(coefs, Day(rows[0].local.value)).value)
  {
    var rows := Frame(lines, h);
    var date := rows[0].local.value;
    var off, coef := zone(date), InForce(coefs, Day(date));
    ConvertSpec(t, rows, off, legs, coef, |rows| - 1);
    SampleOfRecord(t, rows[0], off, legs, coef);
    forall k | 0 <= k < |rows| - 1
      ensures SampleOf(t, rows[k], off, legs, coef).Success?
      ensures CalibratedBy(SampleOf(t, rows[k], off, legs, coef).value, coef.value)
    {
      SampleOfRecord(t, rows[k], off, legs, coef);
    }
  }

  // ---------------------------------------------------------------- the micro sign finding

  /** The units of the five readings of a row are all known prefixes under table t. */
  predicate UnitsKnown(t: PrefixTable, r: Row)
  {
    forall k | 0 <= k < 5 :: Known(t, Strip(Readings(r)[k].unit)) && Known(t, Readings(r)[k].target)
  }

  /** As written, a row never converts: the microampere target's prefix is not in the table. */
  lemma AsWrittenRowFails(r: Row, off: int, legs: seq<Leg>, coef: Option<Coefficient>)
    requires r.local.Some?
    ensures SampleOf(AsWritten, r, off, legs, coef).Failure?
    ensures Known(AsWritten, Strip(r.voltUnit)) && Known(AsWritten, Strip(r.currentUnit)) ==>
      SampleOf(AsWritten, r, off, legs, coef) == Failure(UnknownPrefix(MicroSign))
  {
    var g := Readings(r);
    MicroSignUnknownAsWritten(r.current, Strip(r.currentUnit), 'A');
    ConvAllSucceeds(AsWritten, g);
    assert Conv(AsWritten, g[1]).Failure?;
    if Known(AsWritten, Strip(r.voltUnit)) && Known(AsWritten, Strip(r.currentUnit)) {
      UnitConvFailsIff(AsWritten, r.volt, Strip(r.voltUnit), Volt);
      UnitConvFailsIff(AsWritten, r.current, Strip(r.currentUnit), MicroAmpere);
      assert Known(AsWritten, Volt);
      assert ConvAll(AsWritten, g) == ConvFirst(AsWritten, g);
      assert ConvAll(AsWritten, g[1..]) == ConvFirst(AsWritten, g[1..]);
    }
  }

  /**
   * As written, an import of two or more data rows whose first instant parses always fails,
   * with the unknown prefix U+00B5 when the first row's volt and current units are known.
   */
  lemma AsWrittenFails(lines: seq<Line>, zone: int -> int, legs: seq<Leg>, coefs: seq<Coefficient>, h: nat)
    requires HeaderEnd(Texts(lines)) == Some(h)
    requires |Frame(lines, h)| >= 2 && Frame(lines, h)[0].local.Some?
    ensures Samples(AsWritten, lines, zone, legs, coefs).Failure?
    ensures var r := Frame(lines, h)[0];
      Known(AsWritten, Strip(r.voltUnit)) && Known(AsWritten, Strip(r.currentUnit)) ==>
        Samples(AsWritten, lines, zone, legs, coefs) == Failure(UnknownPrefix(MicroSign))
  {
    var rows := Frame(lines, h);
    var date := rows[0].local.value;
    var off, coef := zone(date), InForce(coefs, Day(date));
    AsWrittenRowFails(rows[0], off, legs, coef);
    ConvertFailsAt(AsWritten, rows, off, legs, coef, 0, |rows| - 1);
  }

  /** A reading whose unit and target are known converts. */
  lemma ConvKnown(t: PrefixTable, g: Reading)
    requires Known(t, Strip(g.unit)) && Known(t, g.target)
    ensures Conv(t, g).Success?
  {
    UnitConvFailsIff(t, g.value, Strip(g.unit), g.target);
  }

  /** With U+00B5 in the table, every target unit of the import is known. */
  lemma TargetsKnownWhenAdded()
    ensures Known(MicroSignAdded, Volt) && Known(MicroSignAdded, MicroAmpere) && Known(MicroSignAdded, Celsius)
    ensures Known(MicroSignAdded, MicroGray) && Known(MicroSignAdded, MicroSievert)
  {
    assert Prefix(MicroAmpere) == MicroSign;
    assert Prefix(MicroGray) == MicroSign;
    assert Prefix(MicroSievert) == MicroSign;
  }

  /**
   * With the corrected table, an import whose first instant parses, whose coefficient is in
   * force and whose rows but the last have parsing instants and known units stores one record
   * per row but the last.
   */
  lemma CorrectedImportSucceeds(lines: seq<Line>, zone: int -> int, legs: seq<Leg>, coefs: seq<Coefficient>, h: nat)
    requires HeaderEnd(Texts(lines)) == Some(h)
    requires var rows := Frame(lines, h);
      && |rows| > 0 && rows[0].local.Some? && InForce(coefs, Day(rows[0].local.value)).Some?
      && forall k | 0 <= k < |rows| - 1 :: rows[k].local.Some? && UnitsKnown(MicroSignAdded, rows[k])
    ensures Samples(MicroSignAdded, lines, zone, legs, coefs).Success?
    ensures |Samples(MicroSignAdded, lines, zone, legs, coefs).value| == |Frame(lines, h)| - 1
  {
    var rows := Frame(lines, h);
    var date := rows[0].local.value;
    var off, coef := zone(date), InForce(coefs, Day(date));
    forall m | 0 <= m < |rows| - 1
      ensures SampleOf(MicroSignAdded, rows[m], off, legs, coef).Success?
    {
      var g := Readings(rows[m]);
      forall k | 0 <= k < 5
        ensures Conv(MicroSignAdded, g[k]).Success?
      {
        ConvKnown(MicroSignAdded, g[k]);
      }
      SampleOfConverts(MicroSignAdded, rows[m], off, legs, coef);
    }
    ConvertSpec(MicroSignAdded, rows, off, legs, coef, |rows| - 1);
  }

  // ---------------------------------------------------------------- calibration edge cases

  /**
   * With no coefficient in force and a first row that converts, an import of two or more rows
   * fails for want of the coefficient.
   */
  lemma MissingCalibrationFails(t: PrefixTable, lines: seq<Line>, zone: int -> int, legs: seq<Leg>, coefs: seq<Coefficient>, h: nat)
    requires HeaderEnd(Texts(lines)) == Some(h)
    requires var rows := Frame(lines, h);
      && |rows| >= 2 && rows[0].local.Some? && InForce(coefs, Day(rows[0].local.value)).None?
      && forall k | 0 <= k < 5 :: Conv(t, Readings(rows[0])[k]).Success?
    ensures Samples(t, lines, zone, legs, coefs) == Failure(MissingCalibration)
  {
    var rows := Frame(lines, h);
    var date := rows[0].local.value;
    var off, coef := zone(date), InForce(coefs, Day(date));
    SampleOfConverts(t, rows[0], off, legs, coef);
    ConvertFailsAt(t, rows, off, legs, coef, 0, |rows| - 1);
  }

  /** A single data row is never converted, so the import stores nothing, coefficient or not. */
  lemma SingleRowStoresNothing(t: PrefixTable, lines: seq<Line>, zone: int -> int, legs: seq<Leg>, coefs: seq<Coefficient>, h: nat)
    requires HeaderEnd(Texts(lines)) == Some(h)
    requires |Frame(lines, h)| == 1 && Frame(lines, h)[0].local.Some?
    ensures Samples(t, lines, zone, legs, coefs) == Success([])
  {
  }

  // ---------------------------------------------------------------- integrate_dose

  function SumBas(data: seq<Sample>): real
  {
    if |data| == 0 then 0.0 else SumBas(data[..|data| - 1]) + data[|data| - 1].bas
  }

  function SumHaut(data: seq<Sample>): real
  {
    if |data| == 0 then 0.0 else SumHaut(data[..|data| - 1]) + data[|data| - 1].haut
  }

  function SumGamma(data: seq<Sample>): real
  {
    if |data| == 0 then 0.0 else SumGamma(data[..|data| - 1]) + data[|data| - 1].gamma
  }

  function SumDoseEqu(data: seq<Sample>): real
  {
    if |data| == 0 then 0.0 else SumDoseEqu(data[..|data| - 1]) + data[|data| - 1].doseEqu
  }

  /** The dose `integrate_dose` gives: the LET parts summed over the records. */
  function Integrated(data: seq<Sample>): Dose
  {
    Dose(SumBas(data) + SumHaut(data), SumBas(data), SumHaut(data))
  }

  /** `integrate_dose`: the LET parts summed over the records; the total is their sum. */
  method IntegrateDose(data: seq<Sample>) returns (d: Dose)
    ensures d.bas == SumBas(data) && d.haut == SumHaut(data) && d.total == d.bas + d.haut
    ensures d == Integrated(data)
  {
    var bLET, hLET := 0.0, 0.0;
    for k := 0 to |data|
      invariant bLET == SumBas(data[..k]) && hLET == SumHaut(data[..k])
    {
      assert data[..k + 1][..k] == data[..k];
      bLET := bLET + data[k].bas;
      hLET := hLET + data[k].haut;
    }
    assert data[..|data|] == data;
    return Dose(bLET + hLET, bLET, hLET);
  }

  /** The sums over two consecutive runs of records add up. */
  lemma {:induction false} SumsAppend(a: seq<Sample>, b: seq<Sample>)
    ensures SumBas(a + b) == SumBas(a) + SumBas(b) && SumHaut(a + b) == SumHaut(a) + SumHaut(b)
    decreases |b|
  {
    if |b| > 0 {
      assert (a + b)[..|a + b| - 1] == a + b[..|b| - 1];
      SumsAppend(a, b[..|b| - 1]);
    } else {
      assert a + b == a;
    }
  }

  /**
   * Over records calibrated by one coefficient, the integrated low-LET dose is the summed gamma
   * dose times bas_LET, and the high-LET dose the summed excess of dose equivalent over gamma
   * dose times haut_LET.
   */
  lemma {:induction false} CalibratedSums(data: seq<Sample>, c: Coefficient)
    requires Calibrated(data, c)
    ensures SumBas(data) == SumGamma(data) * c.bas
    ensures SumHaut(data) == (SumDoseEqu(data) - SumGamma(data)) * c.haut
  {
    if |data| > 0 {
      var init, d := data[..|data| - 1], data[|data| - 1];
      assert Calibrated(init, c) by {
        forall k | 0 <= k < |init| ensures init[k] == data[k] { }
      }
      CalibratedSums(init, c);
      Spread(SumGamma(init), d.gamma, c.bas);
      Spread(SumDoseEqu(init) - SumGamma(init), d.doseEqu - d.gamma, c.haut);
    }
  }

  /** Multiplication distributes over addition. */
  lemma Spread(x: real, y: real, f: real)
    ensures x * f + y * f == (x + y) * f
  {
  }

  // ---------------------------------------------------------------- dose_rate

  /** The instant before record k: the reference for the first record, the previous one's after. */
  function Previous(data: seq<Sample>, k: nat, ref: int): int
    requires k <= |data|
  {
    if k == 0 then ref else data[k - 1].time
  }

  /**
   * One entry of `dose_rate`: the record's offset from the reference instant, and its LET parts
   * per hour since prev; both rates are 0 when no time has passed.
   */
  function RateEntry(d: Sample, prev: int, ref: int): Entry
  {
    var diff := d.time - prev;
    if diff == 0 then Entry(d.time - ref, 0.0, 0.0, 0.0)
    else
      var bas, haut := d.bas / Hours(diff), d.haut / Hours(diff);
      Entry(d.time - ref, bas, haut, bas + haut)
  }

  /** `dose_rate`: one entry per record, each rated over the time since the one before. */
  method DoseRate(data: seq<Sample>, time: int) returns (rate: RateSeries)
    ensures HasLength(rate, |data|)
    ensures forall k | 0 <= k < |data| :: At(rate, k) == RateEntry(data[k], Previous(data, k, time), time)
  {
    var prevTime := time;
    rate := Empty;
    for k := 0 to |data|
      invariant prevTime == Previous(data, k, time)
      invariant HasLength(rate, k)
      invariant forall m | 0 <= m < k :: At(rate, m) == RateEntry(data[m], Previous(data, m, time), time)
    {
      var e := Rate(data[k], prevTime, time);
      rate := Append(rate, e);
      prevTime := data[k].time;
    }
  }

  /** The body of the `dose_rate` loop for one record. */
  method Rate(d: Sample, prevTime: int, time: int) returns (e: Entry)
    ensures e == RateEntry(d, prevTime, time)
  {
    var diff := d.time - prevTime;
    var bas, haut;
    if diff == 0 {
      bas, haut := 0.0, 0.0;
    } else {
      bas := d.bas / Hours(diff);
      haut := d.haut / Hours(diff);
    }
    e := Entry(d.time - time, bas, haut, bas + haut);
  }

  /**
   * An entry's rates add up to its total; times the hours elapsed they give back the record's
   * LET parts, and with no time elapsed they are 0.
   */
  lemma RateEntryInverse(d: Sample, prev: int, ref: int)
    ensures var e := RateEntry(d, prev, ref);
      && e.time == d.time - ref && e.total == e.bas + e.haut
      && (d.time == prev ==> e.bas == 0.0 && e.haut == 0.0)
      && (d.time != prev ==> e.bas * Hours(d.time - prev) == d.bas && e.haut * Hours(d.time - prev) == d.haut)
  {
    if d.time != prev {
      var h := Hours(d.time - prev);
      Undivide(d.bas, h);
      Undivide(d.haut, h);
    }
  }

  lemma Undivide(x: real, y: real)
    requires y != 0.0
    ensures x / y * y == x
  {
  }

  /** Every entry's total rate times the hours it covers, added up over the first n records. */
  function Reintegrated(data: seq<Sample>, ref: int, n: nat): real
    requires n <= |data|
  {
    if n == 0 then 0.0
    else
      var prev := Previous(data, n - 1, ref);
      Reintegrated(data, ref, n - 1) + RateEntry(data[n - 1], prev, ref).total * Hours(data[n - 1].time - prev)
  }

  /**
   * When no record shares its instant with the one before, integrating the rate series over
   * the elapsed hours gives back the integrated dose.
   */
  lemma {:induction false} RateReintegrates(data: seq<Sample>, ref: int, n: nat)
    requires n <= |data|
    requires forall k | 0 <= k < n :: data[k].time != Previous(data, k, ref)
    ensures Reintegrated(data, ref, n) == SumBas(data[..n]) + SumHaut(data[..n])
    decreases n
  {
    if n > 0 {
      RateReintegrates(data, ref, n - 1);
      ReintegratedStep(data, ref, n);
      SumsStep(data, n);
    }
  }

  /** One more record with time elapsed adds its two LET parts back. */
  lemma ReintegratedStep(data: seq<Sample>, ref: int, n: nat)
    requires 0 < n <= |data| && data[n - 1].time != Previous(data, n - 1, ref)
    ensures Reintegrated(data, ref, n) == Reintegrated(data, ref, n - 1) + data[n - 1].bas + data[n - 1].haut
  {
    var d, prev := data[n - 1], Previous(data, n - 1, ref);
    var e, hours := RateEntry(d, prev, ref), Hours(d.time - prev);
    RateEntryInverse(d, prev, ref);
    Spread(e.bas, e.haut, hours);
  }

  /** The sums over the first n records extend those over the first n - 1 by record n - 1. */
  lemma SumsStep(data: seq<Sample>, n: nat)
    requires 0 < n <= |data|
    ensures SumBas(data[..n]) == SumBas(data[..n - 1]) + data[n - 1].bas
    ensures SumHaut(data[..n]) == SumHaut(data[..n - 1]) + data[n - 1].haut
  {
    assert data[..n][..n - 1] == data[..n - 1];
  }
}
