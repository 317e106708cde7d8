/** The spreadsheet cell values the flight-log reader inspects, and `isnotnan` of main/utils.py. */
module PyValues {

  /** A Python value as pandas hands it over: a string, a float (possibly NaN) or a whole column. */
  datatype PyValue = Str(s: string) | Float(x: real) | FloatNaN | Column(cells: seq<PyValue>)

  predicate IsFloat(a: PyValue)
  {
    a.Float? || a.FloatNaN?
  }

  /** `isnotnan(a)`: false only for a float that is NaN. */
  predicate IsNotNan(a: PyValue)
  {
    !(IsFloat(a) && a.FloatNaN?)
  }

  /**
   * isnotnan rejects exactly the NaN float and accepts every other value, in particular a
   * whole column even when every cell of it is NaN.
   */
  lemma IsNotNanExactly(a: PyValue, cells: seq<PyValue>)
    ensures !IsNotNan(a) <==> a == FloatNaN
    ensures IsNotNan(Column(cells))
  {
  }
}
