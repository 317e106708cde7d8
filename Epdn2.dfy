/**
 * The EPDN2 gamma/neutron counter of main/models.py (class DataEPDN2).
 * Its file lists cumulative readings newest first; a sample is the increase between a row and
 * the row after it (the chronologically earlier one).
 */
module Epdn2 {
  import opened Wrappers
  import opened Flights
  import opened Doses

  /**
   * One row of the file: the "DateHeure" local instant (None when it does not parse) and the
   * cumulative "HpG uSv" and "HpN uSv" counters.
   */
  datatype Row = Row(local: Option<int>, hpG: int, hpN: int)

  /** A DataEPDN2 record: UTC instant, leg, and the gamma and neutron increases. */
  datatype Sample = Sample(time: int, flight: Option<Leg>, gamma: int, neutron: int)

  // ---------------------------------------------------------------- get_serial_num

  /** The index of the last c in s, or -1 (`str.rfind`). */
  function RFind(s: string, c: char): (i: int)
    ensures -1 <= i < |s|
    ensures i >= 0 ==> s[i] == c
    ensures forall j | i < j < |s| :: s[j] != c
  {
    if |s| == 0 then -1 else if s[|s| - 1] == c then |s| - 1 else RFind(s[..|s| - 1], c)
  }

  predicate OnlyDots(s: string, lo: int, hi: int)
    requires 0 <= lo <= hi <= |s|
  {
    forall k | lo <= k < hi :: s[k] == '.'
  }

  /**
   * `os.path.splitext(name)[0]`, the serial number: the name without its extension, where
   * the extension starts at the last dot of the base name unless only dots precede it.
   */
  function SerialNum(name: string): (root: string)
    ensures |root| <= |name| && root == name[..|root|]
    ensures |root| < |name| ==>
      (name[|root|] == '.' && forall j | |root| < j < |name| :: name[j] != '.' && name[j] != '/')
    ensures |root| < |name| <==> HasExtension(name)
  {
    var sep, dot := RFind(name, '/'), RFind(name, '.');
    if dot > sep && !OnlyDots(name, sep + 1, dot) then
      assert HasExtension(name) by { var i :| sep + 1 <= i < dot && name[i] != '.'; }
      name[..dot]
    else
      name
  }

  /** The base name (after the last '/') has a dot after some character other than a dot. */
  predicate HasExtension(name: string)
  {
    exists i, k | RFind(name, '/') < i < k < |name| :: name[i] != '.' && name[k] == '.'
  }

  lemma SerialNumExamples()
    ensures SerialNum("1234567.txt") == "1234567"
    ensures SerialNum(".txt") == ".txt"
    ensures SerialNum("1234567") == "1234567"
  {
    var a, b := "1234567.txt", ".txt";
    assert a[7] == '.' && forall j | 0 <= j < |a| && j != 7 :: a[j] != '.';
    assert RFind(a, '.') == 7;
    assert forall j | 0 <= j < |a| :: a[j] != '/';
    assert !OnlyDots(a, 0, 7) by { assert a[0] != '.'; }
    assert a[..7] == "1234567";
    assert b[0] == '.' && forall j | 1 <= j < |b| :: b[j] != '.';
    assert RFind(b, '.') == 0;
    assert forall j | 0 <= j < |b| :: b[j] != '/';
    assert forall j | 0 <= j < 7 :: "1234567"[j] != '.' && "1234567"[j] != '/';
  }

  // ---------------------------------------------------------------- save_file

  /** The sample row idx gives against row idx + 1, its time shifted by the file's UTC offset. */
  function DeltaSample(rows: seq<Row>, off: int, legs: seq<Leg>, idx: nat): Sample
    requires idx + 1 < |rows| && rows[idx].local.Some?
  {
    var time := rows[idx].local.value - off;
    Sample(time, FlightAt(legs, time), rows[idx].hpG - rows[idx + 1].hpG, rows[idx].hpN - rows[idx + 1].hpN)
  }

  /** A sample is kept only when one of its counters went up. */
  predicate Increases(s: Sample)
  {
    s.gamma > 0 || s.neutron > 0
  }

  /** The samples of rows k - 1 down to 0, in that order. */
  function Emit(rows: seq<Row>, off: int, legs: seq<Leg>, k: nat): Result<seq<Sample>, Error>
    requires k < |rows|
  {
    if k == 0 then Success([])
    else if rows[k - 1].local.None? then Failure(MalformedFile)
    else
      var s := DeltaSample(rows, off, legs, k - 1);
      Prefixed(if Increases(s) then [s] else [], Emit(rows, off, legs, k - 1))
  }

  /** The UTC offset of the whole file: the zone's offset at the last (oldest) row. */
  function FileOffset(rows: seq<Row>, zone: int -> int): int
    requires |rows| > 0 && rows[|rows| - 1].local.Some?
  {
    zone(rows[|rows| - 1].local.value)
  }

  /** What `save_file` stores, or why it fails. */
  function Samples(rows: seq<Row>, zone: int -> int, legs: seq<Leg>): Result<seq<Sample>, Error>
  {
    if |rows| == 0 || rows[|rows| - 1].local.None? then Failure(MalformedFile)
    else Emit(rows, FileOffset(rows, zone), legs, |rows| - 1)
  }

  /** `save_file`: walk the rows from the second-to-last up to the first. */
  method ParseFile(rows: seq<Row>, zone: int -> int, legs: seq<Leg>) returns (r: Result<seq<Sample>, Error>)
    ensures r == Samples(rows, zone, legs)
  {
    if |rows| == 0 || rows[|rows| - 1].local.None? {
      return Failure(MalformedFile);
    }
    var utcOff := zone(rows[|rows| - 1].local.value);
    var data: seq<Sample> := [];
    var idx: int := |rows| - 2;
    PrefixedEmpty(Emit(rows, utcOff, legs, |rows| - 1));
    while idx >= 0
      invariant -1 <= idx <= |rows| - 2
      invariant Samples(rows, zone, legs) == Prefixed(data, Emit(rows, utcOff, legs, idx + 1))
    {
      if rows[idx].local.None? {
        assert Emit(rows, utcOff, legs, idx + 1) == Failure(MalformedFile);
        return Failure(MalformedFile);
      }
      var time := rows[idx].local.value - utcOff;
      var gamma := rows[idx].hpG - rows[idx + 1].hpG;
      var neutron := rows[idx].hpN - rows[idx + 1].hpN;
      ghost var s := DeltaSample(rows, utcOff, legs, idx);
      assert s == Sample(time, FlightAt(legs, time), gamma, neutron);
      assert Emit(rows, utcOff, legs, idx + 1) == Prefixed(if Increases(s) then [s] else [], Emit(rows, utcOff, legs, idx));
      if gamma > 0 || neutron > 0 {
        PrefixedTwice(data, [s], Emit(rows, utcOff, legs, idx));
        data := data + [Sample(time, FlightAt(legs, time), gamma, neutron)];
      } else {
        assert data + [] == data;
        PrefixedTwice(data, [], Emit(rows, utcOff, legs, idx));
      }
      idx := idx - 1;
    }
    assert data + [] == data;
    return Success(data);
  }

  /**
   * The parse fails exactly when a row it reads has an unreadable time; otherwise there is at
   * most one sample per pair of consecutive rows, every sample shows an increase and is the
   * difference of some row and its successor.
   */
  lemma {:induction false} EmitShape(rows: seq<Row>, off: int, legs: seq<Leg>, k: nat)
    requires k < |rows|
    ensures Emit(rows, off, legs, k).Success? <==> forall idx | 0 <= idx < k :: rows[idx].local.Some?
    ensures Emit(rows, off, legs, k).Success? ==>
      var v := Emit(rows, off, legs, k).value;
      && |v| <= k
      && (forall m | 0 <= m < |v| :: Increases(v[m]))
      && (forall m | 0 <= m < |v| :: exists idx | 0 <= idx < k ::
            rows[idx].local.Some? && v[m] == DeltaSample(rows, off, legs, idx))
  {
    if k > 0 {
      EmitShape(rows, off, legs, k - 1);
      if rows[k - 1].local.Some? && Emit(rows, off, legs, k - 1).Success? {
        var s := DeltaSample(rows, off, legs, k - 1);
        var rest := Emit(rows, off, legs, k - 1).value;
        var v := Emit(rows, off, legs, k).value;
        var h := if Increases(s) then [s] else [];
        assert v == h + rest;
        forall m | 0 <= m < |v|
          ensures exists idx | 0 <= idx < k :: rows[idx].local.Some? && v[m] == DeltaSample(rows, off, legs, idx)
        {
          if m < |h| {
            assert v[m] == DeltaSample(rows, off, legs, k - 1);
          } else {
            assert v[m] == rest[m - |h|];
          }
        }
      }
    }
  }

  /** Every pair of consecutive rows that shows an increase yields its sample. */
  lemma {:induction false} EmitComplete(rows: seq<Row>, off: int, legs: seq<Leg>, k: nat, idx: nat)
    requires idx < k < |rows| && rows[idx].local.Some?
    requires Emit(rows, off, legs, k).Success?
    requires Increases(DeltaSample(rows, off, legs, idx))
    ensures DeltaSample(rows, off, legs, idx) in Emit(rows, off, legs, k).value
  {
    if idx < k - 1 {
      EmitComplete(rows, off, legs, k - 1, idx);
    }
  }

  /** Rows newest first: each row's local instant is no earlier than the next row's. */
  predicate NewestFirst(rows: seq<Row>)
  {
    forall i | 0 <= i < |rows| - 1 :: rows[i].local.Some? && rows[i + 1].local.Some? ==>
      rows[i].local.value >= rows[i + 1].local.value
  }

  predicate Chronological(v: seq<Sample>)
  {
    forall m | 0 <= m < |v| - 1 :: v[m].time <= v[m + 1].time
  }

  /** When the file lists rows newest first, the samples come out oldest first. */
  lemma {:induction false} EmitChronological(rows: seq<Row>, off: int, legs: seq<Leg>, k: nat)
    requires 0 < k < |rows| && NewestFirst(rows)
    requires Emit(rows, off, legs, k).Success?
    ensures rows[k - 1].local.Some?
    ensures Chronological(Emit(rows, off, legs, k).value)
    ensures var v := Emit(rows, off, legs, k).value;
      forall m | 0 <= m < |v| :: v[m].time >= rows[k - 1].local.value - off
  {
    var s := DeltaSample(rows, off, legs, k - 1);
    var h := if Increases(s) then [s] else [];
    assert Emit(rows, off, legs, k) == Prefixed(h, Emit(rows, off, legs, k - 1));
    var rest := Emit(rows, off, legs, k - 1).value;
    if k > 1 {
      EmitChronological(rows, off, legs, k - 1);
      assert rows[k - 2].local.value >= rows[k - 1].local.value;
    }
    PrependChronological(h, rest, s.time);
  }

  /** A sample no later than every sample of a chronological list can go in front of it. */
  lemma PrependChronological(h: seq<Sample>, rest: seq<Sample>, t: int)
    requires |h| <= 1 && Chronological(rest)
    requires forall m | 0 <= m < |h| :: h[m].time == t
    requires forall m | 0 <= m < |rest| :: rest[m].time >= t
    ensures Chronological(h + rest)
    ensures forall m | 0 <= m < |h + rest| :: (h + rest)[m].time >= t
  {
    var v := h + rest;
    forall m | 0 <= m < |v| - 1
      ensures v[m].time <= v[m + 1].time
    {
      if m < |h| {
        assert v[m + 1] == rest[0];
      } else {
        assert v[m] == rest[m - |h|] && v[m + 1] == rest[m + 1 - |h|];
      }
    }
    forall m | 0 <= m < |v|
      ensures v[m].time >= t
    {
      if m >= |h| {
        assert v[m] == rest[m - |h|];
      }
    }
  }

  // ---------------------------------------------------------------- integrate_dose

  function SumGamma(data: seq<Sample>): int
  {
    if |data| == 0 then 0 else SumGamma(data[..|data| - 1]) + data[|data| - 1].gamma
  }

  function SumNeutron(data: seq<Sample>): int
  {
    if |data| == 0 then 0 else SumNeutron(data[..|data| - 1]) + data[|data| - 1].neutron
  }

  /** The dose `integrate_dose` gives: the gamma sum as low-LET, the neutron sum as high-LET. */
  function Integrated(data: seq<Sample>): Dose
  {
    Dose((SumGamma(data) + SumNeutron(data)) as real, SumGamma(data) as real, SumNeutron(data) as real)
  }

  /** `integrate_dose`: low-LET is the gamma sum, high-LET the neutron sum, the dose both. */
  method IntegrateDose(data: seq<Sample>) returns (d: Dose)
    ensures d.bas == SumGamma(data) as real && d.haut == SumNeutron(data) as real
    ensures d.total == d.bas + d.haut
    ensures d == Integrated(data)
  {
    var bLET, hLET := 0, 0;
    for i := 0 to |data|
      invariant bLET == SumGamma(data[..i]) && hLET == SumNeutron(data[..i])
    {
      assert data[..i + 1][..i] == data[..i];
      bLET := bLET + data[i].gamma;
      hLET := hLET + data[i].neutron;
    }
    assert data[..|data|] == data;
    return Dose((bLET + hLET) as real, bLET as real, hLET as real);
  }

  lemma {:induction false} SumsAppend(a: seq<Sample>, b: seq<Sample>)
    ensures SumGamma(a + b) == SumGamma(a) + SumGamma(b)
    ensures SumNeutron(a + b) == SumNeutron(a) + SumNeutron(b)
  {
    if |b| == 0 {
      assert a + b == a;
    } else {
      assert (a + b)[..|a + b| - 1] == a + b[..|b| - 1];
      SumsAppend(a, b[..|b| - 1]);
    }
  }

  /** Counters that never go down as time goes on (rows newest first). */
  predicate CountersMonotone(rows: seq<Row>)
  {
    forall i | 0 <= i < |rows| - 1 :: rows[i].hpG >= rows[i + 1].hpG && rows[i].hpN >= rows[i + 1].hpN
  }

  /**
   * With counters that never decrease, the dropped rows carry no dose: the samples of rows
   * k - 1 .. 0 add up to the counters' rise between row k and row 0.
   */
  lemma {:induction false} EmitTelescopes(rows: seq<Row>, off: int, legs: seq<Leg>, k: nat)
    requires k < |rows| && CountersMonotone(rows)
    requires Emit(rows, off, legs, k).Success?
    ensures SumGamma(Emit(rows, off, legs, k).value) == rows[0].hpG - rows[k].hpG
    ensures SumNeutron(Emit(rows, off, legs, k).value) == rows[0].hpN - rows[k].hpN
  {
    if k > 0 {
      EmitTelescopes(rows, off, legs, k - 1);
      var s := DeltaSample(rows, off, legs, k - 1);
      var h := if Increases(s) then [s] else [];
      SumsAppend(h, Emit(rows, off, legs, k - 1).value);
      if Increases(s) {
        assert SumGamma(h) == s.gamma by { assert h[..0] == []; }
        assert SumNeutron(h) == s.neutron by { assert h[..0] == []; }
      }
    }
  }

  /** The import fails exactly when the file is empty or one of its times does not parse. */
  lemma SamplesSucceeds(rows: seq<Row>, zone: int -> int, legs: seq<Leg>)
    ensures Samples(rows, zone, legs).Success? <==> |rows| > 0 && forall i | 0 <= i < |rows| :: rows[i].local.Some?
  {
    if |rows| > 0 && rows[|rows| - 1].local.Some? {
      EmitShape(rows, FileOffset(rows, zone), legs, |rows| - 1);
    }
  }

  /**
   * Each stored sample shows an increase and is the difference of some row and the row after
   * it, so there are fewer samples than rows.
   */
  lemma SamplesSound(rows: seq<Row>, zone: int -> int, legs: seq<Leg>)
    requires Samples(rows, zone, legs).Success?
    ensures var v := Samples(rows, zone, legs).value;
      && |v| < |rows|
      && (forall m | 0 <= m < |v| :: Increases(v[m]))
      && (forall m | 0 <= m < |v| :: exists idx | 0 <= idx < |rows| - 1 ::
            rows[idx].local.Some? && v[m] == DeltaSample(rows, FileOffset(rows, zone), legs, idx))
  {
    EmitShape(rows, FileOffset(rows, zone), legs, |rows| - 1);
  }

  /** Every pair of consecutive rows whose counters rose is stored. */
  lemma SamplesComplete(rows: seq<Row>, zone: int -> int, legs: seq<Leg>, idx: nat)
    requires Samples(rows, zone, legs).Success? && idx < |rows| - 1
    ensures rows[idx].local.Some?
    ensures Increases(DeltaSample(rows, FileOffset(rows, zone), legs, idx)) ==>
      DeltaSample(rows, FileOffset(rows, zone), legs, idx) in Samples(rows, zone, legs).value
  {
    SamplesSucceeds(rows, zone, legs);
    if Increases(DeltaSample(rows, FileOffset(rows, zone), legs, idx)) {
      EmitComplete(rows, FileOffset(rows, zone), legs, |rows| - 1, idx);
    }
  }

  /** A file listed newest first is stored oldest first. */
  lemma SamplesChronological(rows: seq<Row>, zone: int -> int, legs: seq<Leg>)
    requires Samples(rows, zone, legs).Success? && NewestFirst(rows)
    ensures Chronological(Samples(rows, zone, legs).value)
  {
    if |rows| > 1 {
      EmitChronological(rows, FileOffset(rows, zone), legs, |rows| - 1);
    }
  }

  /**
   * With counters that never go down, the stored samples add up to the counters' rise between
   * the oldest and the newest row: dropping the rows without increase loses no dose.
   */
  lemma SamplesTelescope(rows: seq<Row>, zone: int -> int, legs: seq<Leg>)
    requires Samples(rows, zone, legs).Success? && CountersMonotone(rows)
    ensures SumGamma(Samples(rows, zone, legs).value) == rows[0].hpG - rows[|rows| - 1].hpG
    ensures SumNeutron(Samples(rows, zone, legs).value) == rows[0].hpN - rows[|rows| - 1].hpN
  {
    EmitTelescopes(rows, FileOffset(rows, zone), legs, |rows| - 1);
  }

  /** An older reading of 100 and a newer one of 140 give a gamma sample of 40; equal readings give none. */
  lemma DeltaExamples(t1: int, t0: int, zone: int -> int, legs: seq<Leg>)
    ensures var v := Samples([Row(Some(t1), 140, 7), Row(Some(t0), 100, 7)], zone, legs);
      v.Success? && |v.value| == 1 && v.value[0].gamma == 40 && v.value[0].neutron == 0
    ensures var v := Samples([Row(Some(t1), 100, 7), Row(Some(t0), 100, 7)], zone, legs);
      v.Success? && v.value == []
  {
    var rows := [Row(Some(t1), 140, 7), Row(Some(t0), 100, 7)];
    var off := FileOffset(rows, zone);
    var s := DeltaSample(rows, off, legs, 0);
    assert Increases(s);
    assert Emit(rows, off, legs, 1) == Prefixed([s], Success([]));
    var same := [Row(Some(t1), 100, 7), Row(Some(t0), 100, 7)];
    var off' := FileOffset(same, zone);
    assert !Increases(DeltaSample(same, off', legs, 0));
    assert Emit(same, off', legs, 1) == Prefixed([], Success([]));
  }

  // ---------------------------------------------------------------- dose_rate (rate points)

  /** The (x, y) points of one channel: offsets from the reference and rates in units per hour. */
  datatype Points = Points(x: seq<int>, y: seq<real>)

  function Amount(s: Sample, gamma: bool): int
  {
    if gamma then s.gamma else s.neutron
  }

  function PrefixedPoints(x: seq<int>, y: seq<real>, r: Result<Points, Error>): Result<Points, Error>
  {
    if r.Success? then Success(Points(x + r.value.x, y + r.value.y)) else r
  }

  /** An amount over an interval of the given seconds, per hour. */
  function PerHour(amount: int, seconds: int): real
    requires seconds != 0
  {
    amount as real / Hours(seconds)
  }

  /**
   * The rate points of one channel, `prev` being the time of the previous non-zero sample of
   * that channel or the reference instant when there is none yet: each non-zero sample after
   * the first gives its amount divided by the hours since the previous non-zero one.
   */
  function ChannelPoints(data: seq<Sample>, gamma: bool, ref: int, prev: int): Result<Points, Error>
  {
    if |data| == 0 then Success(Points([], []))
    else
      var d := data[0];
      if Amount(d, gamma) == 0 then ChannelPoints(data[1..], gamma, ref, prev)
      else if prev == ref then ChannelPoints(data[1..], gamma, ref, d.time)
      else if d.time - prev == 0 then Failure(ZeroDivision)
      else PrefixedPoints([d.time - ref], [PerHour(Amount(d, gamma), d.time - prev)],
                          ChannelPoints(data[1..], gamma, ref, d.time))
  }

  /** Everything `dose_rate` computes before its interpolation step. */
  datatype RatePoints = RatePoints(time: seq<int>, gamma: Points, neutron: Points)

  function Offsets(data: seq<Sample>, ref: int): (x: seq<int>)
    ensures |x| == |data|
    ensures forall k | 0 <= k < |data| :: x[k] == data[k].time - ref
  {
    seq(|data|, k requires 0 <= k < |data| => data[k].time - ref)
  }

  function RatePointsOf(data: seq<Sample>, ref: int): Result<RatePoints, Error>
  {
    var g, n := ChannelPoints(data, true, ref, ref), ChannelPoints(data, false, ref, ref);
    if g.Success? && n.Success? then Success(RatePoints(Offsets(data, ref), g.value, n.value))
    else Failure(ZeroDivision)
  }

  lemma PrefixedPointsTwice(x: seq<int>, y: seq<real>, x': seq<int>, y': seq<real>, r: Result<Points, Error>)
    ensures PrefixedPoints(x, y, PrefixedPoints(x', y', r)) == PrefixedPoints(x + x', y + y', r)
  {
    if r.Success? {
      assert x + (x' + r.value.x) == (x + x') + r.value.x;
      assert y + (y' + r.value.y) == (y + y') + r.value.y;
    }
  }

  lemma PrefixedPointsEmpty(r: Result<Points, Error>)
    ensures PrefixedPoints([], [], r) == r
  {
    if r.Success? {
      assert [] + r.value.x == r.value.x && [] + r.value.y == r.value.y;
    }
  }

  /** One step of a channel's walk through the samples. */
  lemma ChannelStep(data: seq<Sample>, i: nat, gamma: bool, ref: int, prev: int)
    requires i < |data|
    ensures var d := data[i];
      ChannelPoints(data[i..], gamma, ref, prev) ==
        if Amount(d, gamma) == 0 then ChannelPoints(data[i + 1..], gamma, ref, prev)
        else if prev == ref then ChannelPoints(data[i + 1..], gamma, ref, d.time)
        else if d.time - prev == 0 then Failure(ZeroDivision)
        else PrefixedPoints([d.time - ref], [PerHour(Amount(d, gamma), d.time - prev)],
                            ChannelPoints(data[i + 1..], gamma, ref, d.time))
  {
    assert data[i..][1..] == data[i + 1..];
  }

  /** `dose_rate` up to `np.interp`: the sample offsets and the two channels' rate points. */
  method DoseRatePoints(data: seq<Sample>, time: int) returns (r: Result<RatePoints, Error>)
    ensures r == RatePointsOf(data, time)
  {
    var prevBas, prevHaut := time, time;
    var xb, yb, xh, yh, x := [], [], [], [], [];
    PrefixedPointsEmpty(ChannelPoints(data, true, time, time));
    PrefixedPointsEmpty(ChannelPoints(data, false, time, time));
    assert data[0..] == data;
    for i := 0 to |data|
      invariant ChannelPoints(data, true, time, time) == PrefixedPoints(xb, yb, ChannelPoints(data[i..], true, time, prevBas))
      invariant ChannelPoints(data, false, time, time) == PrefixedPoints(xh, yh, ChannelPoints(data[i..], false, time, prevHaut))
      invariant |x| == i && forall k | 0 <= k < i :: x[k] == data[k].time - time
    {
      var d := data[i];
      var t := d.time - time;
      ChannelStep(data, i, true, time, prevBas);
      ChannelStep(data, i, false, time, prevHaut);
      if d.gamma != 0 {
        if prevBas != time {
          var timeDiff := d.time - prevBas;
          if timeDiff == 0 {
            return Failure(ZeroDivision);
          }
          PrefixedPointsTwice(xb, yb, [t], [PerHour(d.gamma, timeDiff)], ChannelPoints(data[i + 1..], true, time, d.time));
          yb := yb + [PerHour(d.gamma, timeDiff)];
          xb := xb + [t];
        }
        prevBas := d.time;
      }
      if d.neutron != 0 {
        if prevHaut != time {
          var timeDiff := d.time - prevHaut;
          if timeDiff == 0 {
            return Failure(ZeroDivision);
          }
          PrefixedPointsTwice(xh, yh, [t], [PerHour(d.neutron, timeDiff)], ChannelPoints(data[i + 1..], false, time, d.time));
          yh := yh + [PerHour(d.neutron, timeDiff)];
          xh := xh + [t];
        }
        prevHaut := d.time;
      }
      x := x + [t];
    }
    assert data[|data|..] == [];
    assert xb + [] == xb && yb + [] == yb && xh + [] == xh && yh + [] == yh;
    assert x == Offsets(data, time);
    return Success(RatePoints(x, Points(xb, yb), Points(xh, yh)));
  }

  function NonZero(data: seq<Sample>, gamma: bool): nat
  {
    if |data| == 0 then 0 else (if Amount(data[0], gamma) != 0 then 1 else 0) + NonZero(data[1..], gamma)
  }

  predicate StrictlyAfter(data: seq<Sample>, t: int)
  {
    forall k | 0 <= k < |data| :: data[k].time > t
  }

  predicate Increasing(data: seq<Sample>)
  {
    forall k | 0 <= k < |data| - 1 :: data[k].time < data[k + 1].time
  }

  /**
   * On samples strictly after the reference and in strictly increasing time order, no division
   * by zero happens and a channel has one point per non-zero sample except its first.
   */
  lemma {:induction false} ChannelPointsCount(data: seq<Sample>, gamma: bool, ref: int, prev: int)
    requires Increasing(data) && StrictlyAfter(data, ref)
    requires prev != ref ==> StrictlyAfter(data, prev)
    ensures ChannelPoints(data, gamma, ref, prev).Success?
    ensures var p := ChannelPoints(data, gamma, ref, prev).value;
      && |p.x| == |p.y|
      && |p.x| == if prev != ref then NonZero(data, gamma)
                  else if NonZero(data, gamma) == 0 then 0 else NonZero(data, gamma) - 1
  {
    if |data| > 0 {
      var d := data[0];
      assert StrictlyAfter(data[1..], d.time) by {
        forall k | 0 <= k < |data[1..]| ensures data[1..][k].time > d.time {
          if k > 0 {
            assert data[1..][k - 1].time < data[1..][k].time;
          }
          ChainAfter(data, 0, k + 1);
        }
      }
      assert StrictlyAfter(data[1..], ref);
      if Amount(d, gamma) == 0 {
        if prev != ref {
          assert StrictlyAfter(data[1..], prev);
        }
        ChannelPointsCount(data[1..], gamma, ref, prev);
      } else {
        ChannelPointsCount(data[1..], gamma, ref, d.time);
      }
    }
  }

  lemma {:induction false} ChainAfter(data: seq<Sample>, i: nat, j: nat)
    requires Increasing(data) && i < j < |data|
    ensures data[i].time < data[j].time
  {
    if j > i + 1 {
      ChainAfter(data, i, j - 1);
    }
  }

  /** The indices, from i on, of the samples whose amount on the channel is not zero, in order. */
  function NonZeroFrom(data: seq<Sample>, gamma: bool, i: nat): (ks: seq<nat>)
    ensures forall a | 0 <= a < |ks| :: i <= ks[a] < |data|
    decreases |data| - i
  {
    if i >= |data| then []
    else (if Amount(data[i], gamma) != 0 then [i] else []) + NonZeroFrom(data, gamma, i + 1)
  }

  /** NonZeroFrom lists every non-zero sample from i on, once, in increasing order. */
  lemma {:induction false} NonZeroFromSpec(data: seq<Sample>, gamma: bool, i: nat)
    ensures forall k :: k in NonZeroFrom(data, gamma, i) <==> i <= k < |data| && Amount(data[k], gamma) != 0
    ensures forall a, b | 0 <= a < b < |NonZeroFrom(data, gamma, i)| ::
      NonZeroFrom(data, gamma, i)[a] < NonZeroFrom(data, gamma, i)[b]
    decreases |data| - i
  {
    if i < |data| {
      NonZeroFromSpec(data, gamma, i + 1);
    }
  }

  /** An empty NonZeroFrom means every sample from i on is zero on the channel. */
  lemma {:induction false} NoNonZero(data: seq<Sample>, gamma: bool, i: nat)
    requires |NonZeroFrom(data, gamma, i)| == 0
    ensures forall k | i <= k < |data| :: Amount(data[k], gamma) == 0
    decreases |data| - i
  {
    if i < |data| {
      assert Amount(data[i], gamma) == 0 && |NonZeroFrom(data, gamma, i + 1)| == 0;
      NoNonZero(data, gamma, i + 1);
    }
  }

  /** The first entry of NonZeroFrom is the first non-zero sample from i on. */
  lemma {:induction false} FirstNonZero(data: seq<Sample>, gamma: bool, i: nat)
    requires |NonZeroFrom(data, gamma, i)| > 0
    ensures Amount(data[NonZeroFrom(data, gamma, i)[0]], gamma) != 0
    ensures forall k | i <= k < NonZeroFrom(data, gamma, i)[0] :: Amount(data[k], gamma) == 0
    decreases |data| - i
  {
    if Amount(data[i], gamma) == 0 {
      assert NonZeroFrom(data, gamma, i) == NonZeroFrom(data, gamma, i + 1) by {
        assert NonZeroFrom(data, gamma, i) == [] + NonZeroFrom(data, gamma, i + 1);
      }
      FirstNonZero(data, gamma, i + 1);
    } else {
      assert NonZeroFrom(data, gamma, i)[0] == i;
    }
  }

  /** Zero samples at the front of the data leave a channel's walk and its non-zero list alone. */
  lemma {:induction false} SkipZeros(data: seq<Sample>, gamma: bool, ref: int, i: nat)
    requires i <= |data| && forall k | 0 <= k < i :: Amount(data[k], gamma) == 0
    ensures ChannelPoints(data, gamma, ref, ref) == ChannelPoints(data[i..], gamma, ref, ref)
    ensures NonZeroFrom(data, gamma, 0) == NonZeroFrom(data, gamma, i)
  {
    if i == 0 {
      assert data[0..] == data;
    } else {
      SkipZeros(data, gamma, ref, i - 1);
      ChannelStep(data, i - 1, gamma, ref, ref);
      assert NonZeroFrom(data, gamma, i - 1) == [] + NonZeroFrom(data, gamma, i);
    }
  }

  /**
   * The points p pair up the samples at ks: each point sits at the offset of its sample and is
   * the sample's amount per hour since the previous one (prev before the first).
   */
  predicate PairsUp(data: seq<Sample>, gamma: bool, ref: int, prev: int, ks: seq<nat>, p: Points)
    decreases |ks|
  {
    if |ks| == 0 then |p.x| == 0 && |p.y| == 0
    else
      && ks[0] < |data| && |p.x| > 0 && |p.y| > 0
      && p.x[0] == data[ks[0]].time - ref
      && data[ks[0]].time > prev
      && p.y[0] == PerHour(Amount(data[ks[0]], gamma), data[ks[0]].time - prev)
      && PairsUp(data, gamma, ref, data[ks[0]].time, ks[1..], Points(p.x[1..], p.y[1..]))
  }

  /** Point j of paired-up points, in closed form. */
  lemma {:induction false} PairsUpAt(data: seq<Sample>, gamma: bool, ref: int, prev: int, ks: seq<nat>, p: Points, j: nat)
    requires PairsUp(data, gamma, ref, prev, ks, p) && j < |ks|
    ensures |p.x| == |ks| && |p.y| == |ks|
    ensures ks[j] < |data| && (j > 0 ==> ks[j - 1] < |data|)
    ensures var before := if j == 0 then prev else data[ks[j - 1]].time;
      && p.x[j] == data[ks[j]].time - ref
      && data[ks[j]].time > before
      && p.y[j] == PerHour(Amount(data[ks[j]], gamma), data[ks[j]].time - before)
    decreases j
  {
    PairsUpLength(data, gamma, ref, prev, ks, p);
    if j > 0 {
      var p' := Points(p.x[1..], p.y[1..]);
      PairsUpAt(data, gamma, ref, data[ks[0]].time, ks[1..], p', j - 1);
      assert ks[1..][j - 1] == ks[j] && p'.x[j - 1] == p.x[j] && p'.y[j - 1] == p.y[j];
      if j > 1 {
        assert ks[1..][j - 2] == ks[j - 1];
      }
    }
  }

  lemma {:induction false} PairsUpLength(data: seq<Sample>, gamma: bool, ref: int, prev: int, ks: seq<nat>, p: Points)
    requires PairsUp(data, gamma, ref, prev, ks, p)
    ensures |p.x| == |ks| && |p.y| == |ks|
    decreases |ks|
  {
    if |ks| > 0 {
      PairsUpLength(data, gamma, ref, data[ks[0]].time, ks[1..], Points(p.x[1..], p.y[1..]));
    }
  }

  /** A non-zero sample i after prev, in front of points that pair up the samples after it. */
  lemma PairsUpStep(data: seq<Sample>, gamma: bool, ref: int, prev: int, i: nat, q: Points)
    requires i < |data| && Amount(data[i], gamma) != 0 && data[i].time > prev
    requires PairsUp(data, gamma, ref, data[i].time, NonZeroFrom(data, gamma, i + 1), q)
    ensures PairsUp(data, gamma, ref, prev, NonZeroFrom(data, gamma, i),
      Points([data[i].time - ref] + q.x, [PerHour(Amount(data[i], gamma), data[i].time - prev)] + q.y))
  {
    var ks := NonZeroFrom(data, gamma, i);
    assert ks == [i] + NonZeroFrom(data, gamma, i + 1);
    assert ks[1..] == NonZeroFrom(data, gamma, i + 1);
    var p := Points([data[i].time - ref] + q.x, [PerHour(Amount(data[i], gamma), data[i].time - prev)] + q.y);
    assert Points(p.x[1..], p.y[1..]) == q;
  }

  /**
   * From sample i on, once the channel has a previous non-zero sample at prev, the points pair
   * up the non-zero samples from i on.
   */
  lemma {:induction false} ChannelPointsFrom(data: seq<Sample>, gamma: bool, ref: int, prev: int, i: nat)
    requires i <= |data| && Increasing(data) && StrictlyAfter(data, ref)
    requires prev != ref && forall k | i <= k < |data| :: data[k].time > prev
    ensures ChannelPoints(data[i..], gamma, ref, prev).Success?
    ensures PairsUp(data, gamma, ref, prev, NonZeroFrom(data, gamma, i), ChannelPoints(data[i..], gamma, ref, prev).value)
    decreases |data| - i
  {
    if i == |data| {
      assert data[i..] == [];
    } else {
      var d := data[i];
      ChannelStep(data, i, gamma, ref, prev);
      if Amount(d, gamma) == 0 {
        assert NonZeroFrom(data, gamma, i) == [] + NonZeroFrom(data, gamma, i + 1);
        ChannelPointsFrom(data, gamma, ref, prev, i + 1);
        assert ChannelPoints(data[i..], gamma, ref, prev) == ChannelPoints(data[i + 1..], gamma, ref, prev);
        assert NonZeroFrom(data, gamma, i) == NonZeroFrom(data, gamma, i + 1);
      } else {
        forall k | i + 1 <= k < |data| ensures data[k].time > d.time {
          ChainAfter(data, i, k);
        }
        ChannelPointsFrom(data, gamma, ref, d.time, i + 1);
        var p' := ChannelPoints(data[i + 1..], gamma, ref, d.time).value;
        assert ChannelPoints(data[i..], gamma, ref, prev)
          == Success(Points([d.time - ref] + p'.x, [PerHour(Amount(d, gamma), d.time - prev)] + p'.y));
        PairsUpStep(data, gamma, ref, prev, i, p');
      }
    }
  }

  /** Point j of points that pair up the samples after sample f, read against f and those samples. */
  lemma PairsUpAfter(data: seq<Sample>, gamma: bool, ref: int, f: nat, ks: seq<nat>, p: Points, j: nat)
    requires f < |data| && PairsUp(data, gamma, ref, data[f].time, ks, p) && j < |ks|
    ensures var fks := [f] + ks;
      && fks[j + 1] < |data| && fks[j] < |data| && j < |p.x| && j < |p.y|
      && p.x[j] == data[fks[j + 1]].time - ref
      && data[fks[j + 1]].time > data[fks[j]].time
      && p.y[j] == PerHour(Amount(data[fks[j + 1]], gamma), data[fks[j + 1]].time - data[fks[j]].time)
  {
    PairsUpAt(data, gamma, ref, data[f].time, ks, p, j);
    var fks := [f] + ks;
    assert fks[j + 1] == ks[j];
    assert fks[j] == if j == 0 then f else ks[j - 1];
  }

  /** A channel's walk skips the zero samples before its first non-zero one, which sets prev. */
  lemma ChannelPointsStart(data: seq<Sample>, gamma: bool, ref: int)
    requires |NonZeroFrom(data, gamma, 0)| > 0
    ensures var f := NonZeroFrom(data, gamma, 0)[0];
      && ChannelPoints(data, gamma, ref, ref) == ChannelPoints(data[f + 1..], gamma, ref, data[f].time)
      && NonZeroFrom(data, gamma, 0) == [f] + NonZeroFrom(data, gamma, f + 1)
  {
    FirstNonZero(data, gamma, 0);
    var f := NonZeroFrom(data, gamma, 0)[0];
    SkipZeros(data, gamma, ref, f);
    ChannelStep(data, f, gamma, ref, ref);
  }

  /**
   * The points p pair up the consecutive samples at ks: point j sits at the offset of sample
   * ks[j + 1] and is its amount per hour since sample ks[j]; there is one point fewer than
   * samples, and none without samples.
   */
  predicate ConsecutivePairs(data: seq<Sample>, gamma: bool, ref: int, ks: seq<nat>, p: Points)
  {
    && (forall a | 0 <= a < |ks| :: ks[a] < |data|)
    && |p.x| == |p.y| && |p.x| == (if |ks| == 0 then 0 else |ks| - 1)
    && forall j | 0 <= j < |p.x| ::
         && p.x[j] == data[ks[j + 1]].time - ref
         && data[ks[j + 1]].time > data[ks[j]].time
         && p.y[j] == PerHour(Amount(data[ks[j + 1]], gamma), data[ks[j + 1]].time - data[ks[j]].time)
  }

  /** Points that pair up the samples at ks after sample f pair up consecutive samples of [f] + ks. */
  lemma PairsUpShifted(data: seq<Sample>, gamma: bool, ref: int, f: nat, ks: seq<nat>, p: Points)
    requires f < |data| && PairsUp(data, gamma, ref, data[f].time, ks, p)
    ensures ConsecutivePairs(data, gamma, ref, [f] + ks, p)
  {
    PairsUpLength(data, gamma, ref, data[f].time, ks, p);
    var fks := [f] + ks;
    forall a | 0 <= a < |fks| ensures fks[a] < |data| {
      if a > 0 {
        PairsUpAt(data, gamma, ref, data[f].time, ks, p, a - 1);
      }
    }
    forall j | 0 <= j < |p.x|
      ensures p.x[j] == data[fks[j + 1]].time - ref
      ensures data[fks[j + 1]].time > data[fks[j]].time
      ensures p.y[j] == PerHour(Amount(data[fks[j + 1]], gamma), data[fks[j + 1]].time - data[fks[j]].time)
    {
      PairsUpAfter(data, gamma, ref, f, ks, p, j);
    }
  }

  /**
   * On samples strictly after the reference and strictly increasing in time, a channel's rate
   * points pair up its consecutive non-zero samples (ConsecutivePairs): point j sits at the
   * offset of the (j+1)-th non-zero sample and is its amount per hour since the j-th; a
   * channel without a non-zero sample has no point.
   */
  lemma ChannelPointsValues(data: seq<Sample>, gamma: bool, ref: int)
    requires Increasing(data) && StrictlyAfter(data, ref)
    ensures ChannelPoints(data, gamma, ref, ref).Success?
    ensures ConsecutivePairs(data, gamma, ref, NonZeroFrom(data, gamma, 0), ChannelPoints(data, gamma, ref, ref).value)
  {
    if |NonZeroFrom(data, gamma, 0)| == 0 {
      NoNonZero(data, gamma, 0);
      SkipZeros(data, gamma, ref, |data|);
      assert data[|data|..] == [];
    } else {
      var f := NonZeroFrom(data, gamma, 0)[0];
      ChannelPointsStart(data, gamma, ref);
      forall k | f + 1 <= k < |data| ensures data[k].time > data[f].time {
        ChainAfter(data, f, k);
      }
      ChannelPointsFrom(data, gamma, ref, data[f].time, f + 1);
      PairsUpShifted(data, gamma, ref, f, NonZeroFrom(data, gamma, f + 1), ChannelPoints(data[f + 1..], gamma, ref, data[f].time).value);
    }
  }
}
