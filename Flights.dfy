/** Flight legs and `getFlightAt` of main/models.py. */
module Flights {
  import opened Wrappers

  /** A Flight record: number, airports and six UTC instants (seconds). */
  datatype Leg = Leg(
    num: string, airportFrom: string, airportTo: string,
    timeDep: int, timeArr: int, timeOut: int, timeOff: int, timeOn: int, timeIn: int)

  /** The airborne window of a leg, both bounds included. */
  predicate Covers(l: Leg, t: int)
  {
    l.timeOff <= t <= l.timeOn
  }

  /** `getFlightAt(flights, time)`: the first leg, in the given order, whose window holds t. */
  function FlightAt(legs: seq<Leg>, t: int): Option<Leg>
  {
    if |legs| == 0 then None
    else if Covers(legs[0], t) then Some(legs[0])
    else FlightAt(legs[1..], t)
  }

  /**
   * No leg is found exactly when no window holds t; a leg found is one whose window holds t
   * and no earlier leg's window does.
   */
  lemma {:induction false} FlightAtSpec(legs: seq<Leg>, t: int)
    ensures FlightAt(legs, t).None? <==> forall i | 0 <= i < |legs| :: !Covers(legs[i], t)
    ensures FlightAt(legs, t).Some? ==> exists i | 0 <= i < |legs| ::
      legs[i] == FlightAt(legs, t).value && Covers(legs[i], t) && forall j | 0 <= j < i :: !Covers(legs[j], t)
  {
    if |legs| > 0 && !Covers(legs[0], t) {
      FlightAtSpec(legs[1..], t);
      assert forall i | 1 <= i < |legs| :: legs[i] == legs[1..][i - 1];
      if FlightAt(legs, t).Some? {
        var i :| 0 <= i < |legs| - 1 && legs[1..][i] == FlightAt(legs, t).value && Covers(legs[1..][i], t)
          && forall j | 0 <= j < i :: !Covers(legs[1..][j], t);
        assert legs[i + 1] == FlightAt(legs, t).value;
      }
    }
  }

  /** Both ends of a window count: a leg is found at its own wheels-off and wheels-on instants. */
  lemma FlightAtInclusiveBounds(legs: seq<Leg>, i: nat)
    requires i < |legs| && legs[i].timeOff <= legs[i].timeOn
    requires forall j | 0 <= j < i :: legs[j].timeOn < legs[i].timeOff || legs[i].timeOn < legs[j].timeOff
    ensures FlightAt(legs, legs[i].timeOff) == Some(legs[i])
    ensures FlightAt(legs, legs[i].timeOn) == Some(legs[i])
  {
    FirstCoverWins(legs, i, legs[i].timeOff);
    FirstCoverWins(legs, i, legs[i].timeOn);
  }

  /** A leg that covers t and has no covering predecessor is the one found. */
  lemma {:induction false} FirstCoverWins(legs: seq<Leg>, i: nat, t: int)
    requires i < |legs| && Covers(legs[i], t)
    requires forall j | 0 <= j < i :: !Covers(legs[j], t)
    ensures FlightAt(legs, t) == Some(legs[i])
  {
    if i > 0 {
      assert !Covers(legs[0], t);
      FirstCoverWins(legs[1..], i - 1, t);
    }
  }

  /** Before every wheels-off or after every wheels-on, no leg is found. */
  lemma FlightAtOutside(legs: seq<Leg>, t: int)
    requires (forall i | 0 <= i < |legs| :: t < legs[i].timeOff) || (forall i | 0 <= i < |legs| :: legs[i].timeOn < t)
    ensures FlightAt(legs, t) == None
  {
    FlightAtSpec(legs, t);
  }

  /**
   * One leg from T0 to T0 + 2h: samples at T0 + 10 min and T0 + 1h belong to it, a sample at
   * T0 + 3h belongs to no leg.
   */
  lemma OneLegExample(l: Leg, t0: int)
    requires l.timeOff == t0 && l.timeOn == t0 + 7200
    ensures FlightAt([l], t0 + 600) == Some(l)
    ensures FlightAt([l], t0 + 3600) == Some(l)
    ensures FlightAt([l], t0 + 10800) == None
  {
  }
}
