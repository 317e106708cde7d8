/**
 * The Liulin spectrometer of main/models.py (class DataLiulin). After two header lines its
 * file holds two-line blocks: a spectrum line (one count per channel) and a line with the
 * date, time, dose and flux of that spectrum.
 */
module Liulin {
  import opened Wrappers
  import opened Text
  import opened Flights
  import opened Doses

  /** The columns of a block's second line that the import reads: local instant, dose, flux. */
  datatype Meta = Meta(local: int, dose: real, flux: real)

  /**
   * One line of the file: its text as `readline` returns it, and the same line as parsed by
   * the whitespace-separated reader (None when its date and time do not parse).
   */
  datatype Line = Line(text: string, meta: Option<Meta>)

  /** A DataLiulin record: UTC instant, leg, dose, flux and the `;`-separated spectrum. */
  datatype Sample = Sample(time: int, flight: Option<Leg>, dose: real, flux: real, spectrum: string)

  // ---------------------------------------------------------------- get_serial_num

  /** The serial number: the first line up to its first space; the line must be ASCII. */
  function SerialNum(lines: seq<string>): (r: Result<string, Error>)
    ensures r.Success? <==> |lines| == 0 || IsAscii(lines[0])
    ensures r.Success? ==> ' ' !in r.value
    ensures r.Success? && |lines| > 0 ==>
      r.value == lines[0] || (|r.value| < |lines[0]| && lines[0][..|r.value| + 1] == r.value + [' '])
    ensures |lines| == 0 ==> r == Success("")
  {
    var first := if |lines| == 0 then "" else lines[0];
    if IsAscii(first) then Success(FirstField(first, ' ')) else Failure(MalformedFile)
  }

  // ---------------------------------------------------------------- save_file

  /** The spectrum line as stored: stripped, with every space turned into `;` (None: not ASCII). */
  function SpectrumOf(text: string): (r: Option<string>)
    ensures r.Some? <==> IsAscii(text)
    ensures r.Some? ==> ' ' !in r.value
  {
    if IsAscii(text) then Some(ReplaceChar(Strip(text), ' ', ';')) else None
  }

  /** Only the spaces change: the stored spectrum is the stripped line with `;` for ' '. */
  lemma SpectrumOfFields(text: string)
    requires IsAscii(text)
    ensures var r := SpectrumOf(text).value;
      |r| == |Strip(text)| && forall i | 0 <= i < |r| :: r[i] == if Strip(text)[i] == ' ' then ';' else Strip(text)[i]
  {
  }

  /** The sample of the block whose spectrum line is body[idx] (None: the block does not read). */
  function Block(body: seq<Line>, off: int, legs: seq<Leg>, idx: nat): Option<Sample>
    requires idx + 1 < |body|
  {
    var spec := SpectrumOf(body[idx].text);
    if spec.None? || body[idx + 1].meta.None? then None
    else
      var m := body[idx + 1].meta.value;
      var time := m.local - off;
      Some(Sample(time, FlightAt(legs, time), m.dose, m.flux, spec.value))
  }

  /** The lines after the two header lines. */
  function Body(lines: seq<Line>): seq<Line>
  {
    if |lines| <= 2 then [] else lines[2..]
  }

  /** The UTC offset of the file: the zone's offset at the first block's instant. */
  function FileOffset(lines: seq<Line>, zone: int -> int): int
    requires |Body(lines)| >= 2 && Body(lines)[1].meta.Some?
  {
    zone(Body(lines)[1].meta.value.local)
  }

  /** Every two-line block of the body reads. */
  predicate AllBlocksRead(body: seq<Line>, off: int, legs: seq<Leg>)
  {
    forall b | 0 <= b < |body| / 2 :: Block(body, off, legs, 2 * b).Some?
  }

  /**
   * What `save_file` stores, or why it fails: one sample per two-line block, in file order,
   * every block's time shifted by the offset of the first block.
   */
  function Samples(lines: seq<Line>, zone: int -> int, legs: seq<Leg>): Result<seq<Sample>, Error>
  {
    var body := Body(lines);
    if |body| < 2 || body[1].meta.None? then Failure(MalformedFile)
    else
      var off := FileOffset(lines, zone);
      if !AllBlocksRead(body, off, legs) then Failure(MalformedFile)
      else Success(seq(|body| / 2, b requires 0 <= b < |body| / 2 => Block(body, off, legs, 2 * b).value))
  }

  /** `save_file`: read one block per iteration, spectrum line first. */
  method ParseFile(lines: seq<Line>, zone: int -> int, legs: seq<Leg>) returns (r: Result<seq<Sample>, Error>)
    ensures r == Samples(lines, zone, legs)
  {
    var body := if |lines| <= 2 then [] else lines[2..];
    if |body| < 2 || body[1].meta.None? {
      return Failure(MalformedFile);
    }
    var utcOff := zone(body[1].meta.value.local);
    var data: seq<Sample> := [];
    var idx := 0;
    while idx < |body| - 1
      invariant idx % 2 == 0 && idx <= |body| && |data| == idx / 2
      invariant forall b | 0 <= b < idx / 2 :: Block(body, utcOff, legs, 2 * b) == Some(data[b])
    {
      var spec := SpectrumOf(body[idx].text);
      if spec.None? || body[idx + 1].meta.None? {
        ghost var b := idx / 2;
        assert 2 * b == idx && Block(body, utcOff, legs, 2 * b).None?;
        return Failure(MalformedFile);
      }
      var m := body[idx + 1].meta.value;
      var time := m.local - utcOff;
      var s := Sample(time, FlightAt(legs, time), m.dose, m.flux, spec.value);
      ghost var b := idx / 2;
      assert 2 * b == idx && Block(body, utcOff, legs, 2 * b) == Some(s);
      data := data + [s];
      idx := idx + 2;
    }
    assert idx / 2 == |body| / 2;
    assert data == seq(|body| / 2, b requires 0 <= b < |body| / 2 => Block(body, utcOff, legs, 2 * b).value);
    return Success(data);
  }

  /**
   * A file is imported when its first block's instant parses and every block reads; it then
   * gives one sample per two-line block, the block's meta line shifted by the one offset, and
   * the block's spectrum line with `;` for spaces.
   */
  lemma SamplesBlocks(lines: seq<Line>, zone: int -> int, legs: seq<Leg>)
    ensures var body := Body(lines);
      Samples(lines, zone, legs).Success? <==>
        |body| >= 2 && body[1].meta.Some? &&
        forall b | 0 <= b < |body| / 2 :: IsAscii(body[2 * b].text) && body[2 * b + 1].meta.Some?
    ensures var body := Body(lines);
      Samples(lines, zone, legs).Success? ==>
        var v := Samples(lines, zone, legs).value;
        && |v| == |body| / 2
        && forall b | 0 <= b < |v| ::
             && body[2 * b + 1].meta.Some?
             && v[b].time == body[2 * b + 1].meta.value.local - FileOffset(lines, zone)
             && v[b].flight == FlightAt(legs, v[b].time)
             && v[b].dose == body[2 * b + 1].meta.value.dose
             && v[b].flux == body[2 * b + 1].meta.value.flux
             && SpectrumOf(body[2 * b].text) == Some(v[b].spectrum)
  {
    var body := Body(lines);
    if |body| >= 2 && body[1].meta.Some? {
      var off := FileOffset(lines, zone);
      if AllBlocksRead(body, off, legs) {
        forall b | 0 <= b < |body| / 2
          ensures IsAscii(body[2 * b].text) && body[2 * b + 1].meta.Some?
        {
          assert Block(body, off, legs, 2 * b).Some?;
        }
      }
    }
  }

  // ---------------------------------------------------------------- the LET split of a spectrum

  /**
   * The low-LET and high-LET weighted counts of a spectrum, in tenths: channel i weighs
   * 40.7 + 81.4 (i - 1), that is (407 + 814 (i - 1)) / 10, so whole counts give whole tenths.
   */
  datatype Lets = Lets(low: int, high: int)

  /** The weight of channel i. */
  function Weight(i: int): real
  {
    40.7 + 81.4 * (i - 1) as real
  }

  /** c * k as repeated addition, so that the channel sums stay within linear arithmetic. */
  function Times(c: int, k: nat): int
  {
    if k == 0 then 0 else Times(c, k - 1) + c
  }

  lemma {:induction false} TimesIsProduct(c: int, k: nat)
    ensures Times(c, k) == c * k
  {
    if k > 0 {
      TimesIsProduct(c, k - 1);
    }
  }

  /** The count c of channel i times the weight of that channel, in tenths. */
  function Weighted(c: int, i: nat): int
  {
    407 * c + 814 * Times(c, if i == 0 then 0 else i - 1)
  }

  /** The tenths are exact: Weighted(c, i) is ten times c * Weight(i). */
  lemma WeightedIsProduct(c: int, i: nat)
    requires i >= 1
    ensures Weighted(c, i) as real == 10.0 * (c as real * Weight(i))
  {
    TimesIsProduct(c, i - 1);
    assert (c * (i - 1)) as real == c as real * (i - 1) as real;
  }

  /** Channels 1 to 12 are low-LET, 13 and above high-LET; channels 1 to 255 are read. */
  const LastLowChannel := 12
  const ChannelCount := 256

  /** The running split after channel i, whose count `int()` read as count (None: not an integer). */
  function AddChannel(prev: Option<Lets>, count: Option<int>, i: nat): Option<Lets>
  {
    if prev.None? || count.None? then None
    else
      var c := Weighted(count.value, i);
      if i <= LastLowChannel then Some(Lets(prev.value.low + c, prev.value.high))
      else Some(Lets(prev.value.low, prev.value.high + c))
  }

  /**
   * The weighted counts of channels 1 .. n - 1 of a spectrum's fields, or None when one
   * of them is not an integer; ch[0], channel 0, plays no part.
   */
  function ChannelSums(ch: seq<string>, n: nat): Option<Lets>
    requires n <= |ch|
  {
    if n <= 1 then Some(Lets(0, 0))
    else AddChannel(ChannelSums(ch, n - 1), ParseInt(ch[n - 1]), n - 1)
  }

  /** The split of a spectrum's fields: None when a channel from 1 to 255 is missing or not an integer. */
  function FieldLets(channels: seq<string>): Option<Lets>
  {
    if |channels| < ChannelCount then None else ChannelSums(channels, ChannelCount)
  }

  /** The split of a stored spectrum, whose fields are separated by `;`. */
  function SpectrumLets(spectrum: string): Option<Lets>
  {
    FieldLets(SplitOn(spectrum, ';'))
  }

  /** A channel that fails to read makes the split of every longer prefix fail. */
  lemma {:induction false} SumsStayNone(ch: seq<string>, n: nat, m: nat)
    requires n <= m <= |ch| && ChannelSums(ch, n).None?
    ensures ChannelSums(ch, m).None?
    decreases m - n
  {
    if n < m {
      SumsStayNone(ch, n + 1, m);
    }
  }

  /** One more channel: the split up to channel i adds that channel's count c to the split before it. */
  lemma ChannelStep(ch: seq<string>, i: nat, c: Option<int>)
    requires 1 <= i < |ch| && c == ParseInt(ch[i])
    ensures ChannelSums(ch, i + 1) == AddChannel(ChannelSums(ch, i), c, i)
  {
  }

  /** The loop over channels 1 to 255 shared by `integrate_dose` and `dose_rate`. */
  method ChannelLets(channels: seq<string>) returns (r: Option<Lets>)
    ensures r == FieldLets(channels)
  {
    if |channels| < ChannelCount {
      return None;
    }
    var bLET, hLET := 0, 0;
    for i := 1 to ChannelCount
      invariant ChannelSums(channels, i) == Some(Lets(bLET, hLET))
    {
      var c := ParseInt(channels[i]);
      ChannelStep(channels, i, c);
      if c.None? {
        SumsStayNone(channels, i + 1, ChannelCount);
        return None;
      }
      var w := Weighted(c.value, i);
      if i <= LastLowChannel {
        bLET := bLET + w;
      } else {
        hLET := hLET + w;
      }
    }
    return Some(Lets(bLET, hLET));
  }

  /** Channel 0 is never read: two spectra whose fields differ only there have the same split. */
  lemma {:induction false} ChannelZeroIgnored(ch: seq<string>, ch': seq<string>, n: nat)
    requires n <= |ch| && n <= |ch'|
    requires forall i | 1 <= i < n :: ch[i] == ch'[i]
    ensures ChannelSums(ch, n) == ChannelSums(ch', n)
  {
    if n > 1 {
      ChannelZeroIgnored(ch, ch', n - 1);
      assert ParseInt(ch[n - 1]) == ParseInt(ch'[n - 1]);
    }
  }

  /** The same, on a whole stored spectrum: its first field is never read. */
  lemma FieldZeroIgnored(channels: seq<string>, channels': seq<string>)
    requires |channels| == |channels'|
    requires forall i | 1 <= i < |channels| :: channels[i] == channels'[i]
    ensures FieldLets(channels) == FieldLets(channels')
  {
    if |channels| >= ChannelCount {
      ChannelZeroIgnored(channels, channels', ChannelCount);
    }
  }

  /** The low-LET part depends on channels 1 to 12 only. */
  lemma {:induction false} LowFromLowChannels(ch: seq<string>, ch': seq<string>, n: nat)
    requires n <= |ch| && n <= |ch'| && ChannelSums(ch, n).Some? && ChannelSums(ch', n).Some?
    requires forall i | 1 <= i <= LastLowChannel && i < n :: ch[i] == ch'[i]
    ensures ChannelSums(ch, n).value.low == ChannelSums(ch', n).value.low
  {
    if n > 1 {
      LowFromLowChannels(ch, ch', n - 1);
    }
  }

  /** The high-LET part depends on channels 13 and above only. */
  lemma {:induction false} HighFromHighChannels(ch: seq<string>, ch': seq<string>, n: nat)
    requires n <= |ch| && n <= |ch'| && ChannelSums(ch, n).Some? && ChannelSums(ch', n).Some?
    requires forall i | LastLowChannel < i < n :: ch[i] == ch'[i]
    ensures ChannelSums(ch, n).value.high == ChannelSums(ch', n).value.high
  {
    if n > 1 {
      HighFromHighChannels(ch, ch', n - 1);
    }
  }

  /** With zero counts above channel 12 the high-LET part is zero. */
  lemma {:induction false} QuietHighChannels(ch: seq<string>, n: nat)
    requires n <= |ch| && ChannelSums(ch, n).Some?
    requires forall i | LastLowChannel < i < n :: ParseInt(ch[i]) == Some(0)
    ensures ChannelSums(ch, n).value.high == 0
  {
    if n > 1 {
      QuietHighChannels(ch, n - 1);
      if n - 1 > LastLowChannel {
        assert Times(0, n - 2) == 0 by { TimesIsProduct(0, n - 2); }
      }
    }
  }

  /** b / t * x + h / t * x == x when t == b + h is not zero. */
  lemma SharesAddUp(b: real, h: real, x: real)
    requires b + h != 0.0
    ensures b / (b + h) * x + h / (b + h) * x == x
    ensures x * (b / (b + h)) + x * (h / (b + h)) == x
  {
    var t := b + h;
    calc {
      b / t * x + h / t * x;
      (b / t + h / t) * x;
      { assert b / t + h / t == (b + h) / t; }
      ((b + h) / t) * x;
      { assert (b + h) / t == 1.0; }
      x;
    }
  }

  /** (a + b) * e == a * e + b * e. */
  lemma Distribute(a: real, b: real, e: real)
    ensures (a + b) * e == a * e + b * e
  {
  }

  /**
   * The total tot shared between low and high LET in proportion to the weighted counts
   * (`bLET / tLET * tot`); a zero total count is Python's ZeroDivisionError.
   */
  function Divide(l: Lets, tot: real): (r: Result<Option<Dose>, Error>)
    ensures r.Success? <==> l.low + l.high != 0
    ensures r.Failure? ==> r.error == ZeroDivision
    ensures r.Success? ==> r.value.Some? && r.value.value.total == tot && r.value.value.bas + r.value.value.haut == tot
  {
    var t := l.low + l.high;
    if t == 0 then Failure(ZeroDivision)
    else
      SharesAddUp(l.low as real, l.high as real, tot);
      Success(Some(Dose(tot, l.low as real / t as real * tot, l.high as real / t as real * tot)))
  }

  // ---------------------------------------------------------------- integrate_dose

  /** The split of every spectrum added up, or None when one of them does not read. */
  function SumLets(data: seq<Sample>): Option<Lets>
  {
    if |data| == 0 then Some(Lets(0, 0))
    else
      var prev := SumLets(data[..|data| - 1]);
      var l := SpectrumLets(data[|data| - 1].spectrum);
      if prev.None? || l.None? then None
      else Some(Lets(prev.value.low + l.value.low, prev.value.high + l.value.high))
  }

  function DoseSum(data: seq<Sample>): real
  {
    if |data| == 0 then 0.0 else DoseSum(data[..|data| - 1]) + data[|data| - 1].dose
  }

  /** Every sample's dose rate times the exposure e, added up as `integrate_dose` does. */
  function Exposed(data: seq<Sample>, e: real): real
  {
    if |data| == 0 then 0.0 else Exposed(data[..|data| - 1], e) + data[|data| - 1].dose * e
  }

  /** The accumulated dose is the summed dose rate times the exposure. */
  lemma {:induction false} ExposedIsProduct(data: seq<Sample>, e: real)
    ensures Exposed(data, e) == DoseSum(data) * e
  {
    if |data| > 0 {
      ExposedIsProduct(data[..|data| - 1], e);
      Distribute(DoseSum(data[..|data| - 1]), data[|data| - 1].dose, e);
    }
  }

  /**
   * `integrate_dose`: None below two samples; otherwise every sample's dose rate counts for
   * the interval between the first two samples, and the total is shared between low and high
   * LET in proportion to the summed weighted counts.
   */
  function Integrated(data: seq<Sample>): Result<Option<Dose>, Error>
  {
    if |data| < 2 then Success(None)
    else
      var lets := SumLets(data);
      if lets.None? then Failure(BadSpectrum)
      else Divide(lets.value, Exposed(data, Hours(data[1].time - data[0].time)))
  }

  /** With every spectrum read, `integrate_dose` is the division of the summed dose. */
  lemma IntegratedOf(data: seq<Sample>, l: Lets, tot: real)
    requires |data| >= 2 && SumLets(data) == Some(l)
    requires tot == Exposed(data, Hours(data[1].time - data[0].time))
    ensures Integrated(data) == Divide(l, tot)
  {
  }

  method IntegrateDose(data: seq<Sample>) returns (r: Result<Option<Dose>, Error>)
    ensures r == Integrated(data)
  {
    var bLET, hLET, tot := 0, 0, 0.0;
    if |data| < 2 {
      return Success(None);
    }
    var expo := Hours(data[1].time - data[0].time);
    for k := 0 to |data|
      invariant tot == Exposed(data[..k], expo)
      invariant SumLets(data[..k]) == Some(Lets(bLET, hLET))
    {
      var d := data[k];
      assert data[..k + 1][..k] == data[..k];
      tot := tot + d.dose * expo;
      var channels := SplitOn(d.spectrum, ';');
      var l := ChannelLets(channels);
      if l.None? {
        SumLetsFails(data, k + 1);
        return Failure(BadSpectrum);
      }
      bLET := bLET + l.value.low;
      hLET := hLET + l.value.high;
    }
    assert data[..|data|] == data;
    IntegratedOf(data, Lets(bLET, hLET), tot);
    return Divide(Lets(bLET, hLET), tot);
  }

  /** Once a prefix fails to read, the whole sequence does. */
  lemma {:induction false} SumLetsFails(data: seq<Sample>, k: nat)
    requires k <= |data| && SumLets(data[..k]).None?
    ensures SumLets(data).None?
    decreases |data| - k
  {
    if k < |data| {
      assert data[..k + 1][..k] == data[..k];
      SumLetsFails(data, k + 1);
    } else {
      assert data[..k] == data;
    }
  }

  /** `integrate_dose` gives None exactly when fewer than two samples are given. */
  lemma IntegratedNone(data: seq<Sample>)
    ensures Integrated(data) == Success(None) <==> |data| < 2
  {
  }

  /**
   * The integrated dose is every sample's dose rate times the interval between the first two
   * samples, added up (by ExposedIsProduct, the summed rate times that interval), and its
   * low-LET and high-LET parts add up to it.
   */
  lemma IntegratedAddsUp(data: seq<Sample>)
    ensures Integrated(data).Success? && Integrated(data).value.Some? ==>
      var d := Integrated(data).value.value;
      && d.total == Exposed(data, Hours(data[1].time - data[0].time))
      && d.bas + d.haut == d.total
  {
  }

  // ---------------------------------------------------------------- dose_rate

  /** One entry of `dose_rate`: the sample's dose shared in proportion to its own split. */
  function RateEntry(d: Sample, ref: int): Result<Entry, Error>
  {
    var l := SpectrumLets(d.spectrum);
    if l.None? then Failure(BadSpectrum)
    else
      var t := l.value.low + l.value.high;
      if t == 0 then Failure(ZeroDivision)
      else Success(Entry(d.time - ref, d.dose * (l.value.low as real / t as real), d.dose * (l.value.high as real / t as real), d.dose))
  }

  /** Each entry's low-LET and high-LET rates add up to the sample's dose, its total. */
  lemma RateEntryAddsUp(d: Sample, ref: int)
    requires RateEntry(d, ref).Success?
    ensures var e := RateEntry(d, ref).value;
      e.bas + e.haut == e.total && e.total == d.dose && e.time == d.time - ref
  {
    var l := SpectrumLets(d.spectrum).value;
    SharesAddUp(l.low as real, l.high as real, d.dose);
  }

  /** `dose_rate`: one entry per sample, or the first sample's failure. */
  method DoseRate(data: seq<Sample>, time: int) returns (r: Result<RateSeries, Error>)
    ensures r.Success? <==> forall k | 0 <= k < |data| :: RateEntry(data[k], time).Success?
    ensures r.Success? ==> HasLength(r.value, |data|)
    ensures r.Success? ==> forall k | 0 <= k < |data| :: At(r.value, k) == RateEntry(data[k], time).value
  {
    var rate := Empty;
    for k := 0 to |data|
      invariant HasLength(rate, k)
      invariant forall m | 0 <= m < k :: RateEntry(data[m], time).Success? && At(rate, m) == RateEntry(data[m], time).value
    {
      var d := data[k];
      var channels := SplitOn(d.spectrum, ';');
      var l := ChannelLets(channels);
      if l.None? {
        assert RateEntry(data[k], time).Failure?;
        return Failure(BadSpectrum);
      }
      var tLET := l.value.low + l.value.high;
      if tLET == 0 {
        assert RateEntry(data[k], time).Failure?;
        return Failure(ZeroDivision);
      }
      rate := Append(rate, Entry(d.time - time, d.dose * (l.value.low as real / tLET as real), d.dose * (l.value.high as real / tLET as real), d.dose));
    }
    return Success(rate);
  }
}
