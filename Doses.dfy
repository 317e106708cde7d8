/** Integrated doses and dose-rate series, the common outputs of the three device kinds. */
module Doses {

  /** An IntegratedDose without its references: total, low-LET and high-LET parts. */
  datatype Dose = Dose(total: real, bas: real, haut: real)

  /**
   * The dict returned by `dose_rate`: per sample, the offset in seconds from the reference
   * instant and the low-LET, high-LET and total rates.
   */
  datatype RateSeries = RateSeries(time: seq<int>, bas: seq<real>, haut: seq<real>, total: seq<real>)

  /** One position of a RateSeries. */
  datatype Entry = Entry(time: int, bas: real, haut: real, total: real)

  /** All four lists of the series hold n entries. */
  predicate HasLength(rs: RateSeries, n: nat)
  {
    |rs.time| == n && |rs.bas| == n && |rs.haut| == n && |rs.total| == n
  }

  function At(rs: RateSeries, k: nat): Entry
    requires k < |rs.time| && k < |rs.bas| && k < |rs.haut| && k < |rs.total|
  {
    Entry(rs.time[k], rs.bas[k], rs.haut[k], rs.total[k])
  }

  /** The four `append` calls of one loop iteration. */
  function Append(rs: RateSeries, e: Entry): (r: RateSeries)
    ensures forall n: nat | HasLength(rs, n) ::
      (HasLength(r, n + 1) && At(r, n) == e && forall k | 0 <= k < n :: At(r, k) == At(rs, k))
  {
    RateSeries(rs.time + [e.time], rs.bas + [e.bas], rs.haut + [e.haut], rs.total + [e.total])
  }

  const Empty := RateSeries([], [], [], [])

  /** `timedelta.total_seconds() / 3600`. */
  function Hours(seconds: int): real
  {
    seconds as real / 3600.0
  }
}
