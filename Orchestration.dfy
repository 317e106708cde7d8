/**
 * `idose_flights` of main/views.py: the integrated dose of one data file over each flight of a
 * flight log, for whichever device kind recorded the file.
 */
module Orchestration {
  import opened Wrappers
  import opened Doses
  import opened Flights
  import opened Collecting
  import Epdn2
  import Liulin
  import Hawk

  /** An IntegratedDose row: a dose tagged with the data file (its key) and the flight. */
  datatype Record = Record(dose: Dose, datafile: int, flight: Leg)

  /**
   * What the view is given: the stored samples of the data file on a flight (the ORM filter on
   * flight and file) and the device kind's `integrate_dose`, which may give no dose or raise.
   */
  datatype Device<!S> = Device(samplesOf: Leg -> seq<S>, integrate: seq<S> -> Result<Option<Dose>, Error>)

  /** One loop iteration: a record when the flight has samples and a dose, else nothing, or the exception. */
  function RecordOf<S>(datafile: int, dev: Device<S>, flight: Leg): Result<Option<Record>, Error>
  {
    var data := dev.samplesOf(flight);
    if |data| == 0 then Success(None)
    else
      match dev.integrate(data)
      case Failure(e) => Failure(e)
      case Success(None) => Success(None)
      case Success(Some(d)) => Success(Some(Record(d, datafile, flight)))
  }

  function Step<S>(datafile: int, dev: Device<S>): Leg -> Result<Option<Record>, Error>
  {
    flight => RecordOf(datafile, dev, flight)
  }

  /** The records of the first k flights, or the exception `integrate_dose` raised. */
  function IDoses<S>(datafile: int, dev: Device<S>, flights: seq<Leg>, k: nat): Result<seq<Record>, Error>
    requires k <= |flights|
  {
    Collect(flights, Step(datafile, dev), k)
  }

  /** `idose_flights(datafile, flights)`: the loop appending one record per flight with a dose. */
  method IdoseFlights<S>(datafile: int, dev: Device<S>, flights: seq<Leg>) returns (r: Result<seq<Record>, Error>)
    ensures r == IDoses(datafile, dev, flights, |flights|)
  {
    var idoses: seq<Record> := [];
    for i := 0 to |flights|
      invariant IDoses(datafile, dev, flights, i) == Success(idoses)
    {
      var flight := flights[i];
      var data := dev.samplesOf(flight);
      if |data| != 0 {
        var idose := dev.integrate(data);
        if idose.Failure? {
          CollectStopsAt(flights, Step(datafile, dev), i, |flights|);
          return Failure(idose.error);
        }
        if idose.value.Some? {
          idoses := idoses + [Record(idose.value.value, datafile, flight)];
        }
      }
    }
    r := Success(idoses);
  }

  /** The flight has stored samples and `integrate_dose` gives a dose for them. */
  predicate Dosed<S>(dev: Device<S>, flight: Leg)
  {
    |dev.samplesOf(flight)| > 0 && dev.integrate(dev.samplesOf(flight)).Success?
    && dev.integrate(dev.samplesOf(flight)).value.Some?
  }

  /**
   * The view raises exactly when `integrate_dose` raises on some flight with samples. Otherwise
   * it gives one record per dosed flight and no other, in the order of the flights, each
   * carrying the dose of that flight and tagged with the data file and that flight.
   */
  lemma IDosesSpec<S>(datafile: int, dev: Device<S>, flights: seq<Leg>)
    ensures IDoses(datafile, dev, flights, |flights|).Success? <==>
      forall i | 0 <= i < |flights| :: |dev.samplesOf(flights[i])| == 0 || dev.integrate(dev.samplesOf(flights[i])).Success?
    ensures IDoses(datafile, dev, flights, |flights|).Success? ==>
      var rs, ks := IDoses(datafile, dev, flights, |flights|).value, Kept(flights, Step(datafile, dev), |flights|);
      && |rs| == |ks|
      && (forall j | 0 <= j < |rs| ::
            && ks[j] < |flights| && Dosed(dev, flights[ks[j]])
            && rs[j] == Record(dev.integrate(dev.samplesOf(flights[ks[j]])).value.value, datafile, flights[ks[j]]))
      && (forall a, b | 0 <= a < b < |ks| :: ks[a] < ks[b])
      && (forall i | 0 <= i < |flights| :: i in ks <==> Dosed(dev, flights[i]))
  {
    var f := Step(datafile, dev);
    CollectSpec(flights, f, |flights|);
    KeptSpec(flights, f, |flights|);
    forall i | 0 <= i < |flights|
      ensures f(flights[i]).Success? <==> |dev.samplesOf(flights[i])| == 0 || dev.integrate(dev.samplesOf(flights[i])).Success?
      ensures Gives(f, flights[i]) <==> Dosed(dev, flights[i])
    {
    }
  }

  /** A log whose flights hold no samples of the file gives no record. */
  lemma {:induction false} NoSamplesNoRecords<S>(datafile: int, dev: Device<S>, flights: seq<Leg>, k: nat)
    requires k <= |flights|
    requires forall i | 0 <= i < |flights| :: |dev.samplesOf(flights[i])| == 0
    ensures IDoses(datafile, dev, flights, k) == Success([])
  {
    if k > 0 {
      NoSamplesNoRecords(datafile, dev, flights, k - 1);
    }
  }

  // ---------------------------------------------------------------- the three device kinds

  /** An EPDN2 data file, integrated by `DataEPDN2.integrate_dose`, which always gives a dose. */
  function Epdn2Device(samplesOf: Leg -> seq<Epdn2.Sample>): Device<Epdn2.Sample>
  {
    Device(samplesOf, data => Success(Some(Epdn2.Integrated(data))))
  }

  /** A Liulin data file, integrated by `DataLiulin.integrate_dose`. */
  function LiulinDevice(samplesOf: Leg -> seq<Liulin.Sample>): Device<Liulin.Sample>
  {
    Device(samplesOf, data => Liulin.Integrated(data))
  }

  /** A Hawk data file, integrated by `DataHawk.integrate_dose`, which always gives a dose. */
  function HawkDevice(samplesOf: Leg -> seq<Hawk.Sample>): Device<Hawk.Sample>
  {
    Device(samplesOf, data => Success(Some(Hawk.Integrated(data))))
  }

  /**
   * A device whose integration always gives a dose never makes the view raise, and every
   * flight holding samples of the file gets its record, in flight order.
   */
  lemma TotalDeviceDoses<S>(datafile: int, dev: Device<S>, flights: seq<Leg>)
    requires forall i | 0 <= i < |flights| ::
      dev.integrate(dev.samplesOf(flights[i])).Success? && dev.integrate(dev.samplesOf(flights[i])).value.Some?
    ensures IDoses(datafile, dev, flights, |flights|).Success?
    ensures var rs, ks := IDoses(datafile, dev, flights, |flights|).value, Kept(flights, Step(datafile, dev), |flights|);
      && |rs| == |ks|
      && (forall j | 0 <= j < |rs| ::
            && ks[j] < |flights|
            && rs[j] == Record(dev.integrate(dev.samplesOf(flights[ks[j]])).value.value, datafile, flights[ks[j]]))
      && (forall a, b | 0 <= a < b < |ks| :: ks[a] < ks[b])
      && (forall i | 0 <= i < |flights| :: i in ks <==> |dev.samplesOf(flights[i])| > 0)
  {
    IDosesSpec(datafile, dev, flights);
  }

  /**
   * For an EPDN2 file the view never raises; it records every flight holding samples of the
   * file, in flight order, with the gamma sum as low-LET and the neutron sum as high-LET.
   */
  lemma Epdn2Doses(datafile: int, samplesOf: Leg -> seq<Epdn2.Sample>, flights: seq<Leg>)
    ensures IDoses(datafile, Epdn2Device(samplesOf), flights, |flights|).Success?
    ensures var rs, ks := IDoses(datafile, Epdn2Device(samplesOf), flights, |flights|).value,
                          Kept(flights, Step(datafile, Epdn2Device(samplesOf)), |flights|);
      && |rs| == |ks|
      && (forall j | 0 <= j < |rs| ::
            && ks[j] < |flights| && rs[j].flight == flights[ks[j]] && rs[j].datafile == datafile
            && rs[j].dose.bas == Epdn2.SumGamma(samplesOf(flights[ks[j]])) as real
            && rs[j].dose.haut == Epdn2.SumNeutron(samplesOf(flights[ks[j]])) as real
            && rs[j].dose.total == rs[j].dose.bas + rs[j].dose.haut)
      && (forall a, b | 0 <= a < b < |ks| :: ks[a] < ks[b])
      && (forall i | 0 <= i < |flights| :: i in ks <==> |samplesOf(flights[i])| > 0)
  {
    TotalDeviceDoses(datafile, Epdn2Device(samplesOf), flights);
  }

  /**
   * For a Hawk file the view never raises; it records every flight holding samples of the
   * file, in flight order, with the summed low-LET and high-LET parts.
   */
  lemma HawkDoses(datafile: int, samplesOf: Leg -> seq<Hawk.Sample>, flights: seq<Leg>)
    ensures IDoses(datafile, HawkDevice(samplesOf), flights, |flights|).Success?
    ensures var rs, ks := IDoses(datafile, HawkDevice(samplesOf), flights, |flights|).value,
                          Kept(flights, Step(datafile, HawkDevice(samplesOf)), |flights|);
      && |rs| == |ks|
      && (forall j | 0 <= j < |rs| ::
            && ks[j] < |flights| && rs[j].flight == flights[ks[j]] && rs[j].datafile == datafile
            && rs[j].dose.bas == Hawk.SumBas(samplesOf(flights[ks[j]]))
            && rs[j].dose.haut == Hawk.SumHaut(samplesOf(flights[ks[j]]))
            && rs[j].dose.total == rs[j].dose.bas + rs[j].dose.haut)
      && (forall a, b | 0 <= a < b < |ks| :: ks[a] < ks[b])
      && (forall i | 0 <= i < |flights| :: i in ks <==> |samplesOf(flights[i])| > 0)
  {
    TotalDeviceDoses(datafile, HawkDevice(samplesOf), flights);
  }

  /**
   * For a Liulin file the view raises exactly when the integration of a flight with two or
   * more samples fails (an unreadable spectrum or a zero weighted total). Otherwise it records
   * exactly the flights with two or more samples, in flight order, each dose being the
   * exposed dose of that flight split into low-LET and high-LET parts that add up to it.
   */
  lemma LiulinDoses(datafile: int, samplesOf: Leg -> seq<Liulin.Sample>, flights: seq<Leg>)
    ensures IDoses(datafile, LiulinDevice(samplesOf), flights, |flights|).Success? <==>
      forall i | 0 <= i < |flights| :: |samplesOf(flights[i])| < 2 || Liulin.Integrated(samplesOf(flights[i])).Success?
    ensures IDoses(datafile, LiulinDevice(samplesOf), flights, |flights|).Success? ==>
      var rs, ks := IDoses(datafile, LiulinDevice(samplesOf), flights, |flights|).value,
                    Kept(flights, Step(datafile, LiulinDevice(samplesOf)), |flights|);
      && |rs| == |ks|
      && (forall j | 0 <= j < |rs| ::
            && ks[j] < |flights| && |samplesOf(flights[ks[j]])| >= 2
            && rs[j].flight == flights[ks[j]] && rs[j].datafile == datafile
            && rs[j].dose.total == Liulin.Exposed(samplesOf(flights[ks[j]]),
                 Hours(samplesOf(flights[ks[j]])[1].time - samplesOf(flights[ks[j]])[0].time))
            && rs[j].dose.bas + rs[j].dose.haut == rs[j].dose.total)
      && (forall a, b | 0 <= a < b < |ks| :: ks[a] < ks[b])
      && (forall i | 0 <= i < |flights| :: i in ks <==> |samplesOf(flights[i])| >= 2)
  {
    var dev := LiulinDevice(samplesOf);
    IDosesSpec(datafile, dev, flights);
    forall i | 0 <= i < |flights|
      ensures |samplesOf(flights[i])| == 0 || dev.integrate(samplesOf(flights[i])).Success?
        <==> |samplesOf(flights[i])| < 2 || Liulin.Integrated(samplesOf(flights[i])).Success?
    {
      Liulin.IntegratedNone(samplesOf(flights[i]));
    }
    if IDoses(datafile, dev, flights, |flights|).Success? {
      var rs, ks := IDoses(datafile, dev, flights, |flights|).value, Kept(flights, Step(datafile, dev), |flights|);
      forall i | 0 <= i < |flights|
        ensures Dosed(dev, flights[i]) <==> |samplesOf(flights[i])| >= 2
      {
        Liulin.IntegratedNone(samplesOf(flights[i]));
      }
      forall j | 0 <= j < |rs|
        ensures rs[j].dose.total == Liulin.Exposed(samplesOf(flights[ks[j]]),
                  Hours(samplesOf(flights[ks[j]])[1].time - samplesOf(flights[ks[j]])[0].time))
        ensures rs[j].dose.bas + rs[j].dose.haut == rs[j].dose.total
      {
        Liulin.IntegratedAddsUp(samplesOf(flights[ks[j]]));
      }
    }
  }
}
