/** Option and Result wrappers shared by every module of the dose engine. */
module Wrappers {

  datatype Option<+T> = None | Some(value: T)

  datatype Result<+T, +E> = Success(value: T) | Failure(error: E)

  /** Why an import, a conversion or a dose computation gives up. */
  datatype Error =
    | UnknownPrefix(prefix: string)  // a metric prefix missing from the conversion table (KeyError)
    | MissingCalibration             // no Coefficient in force for a Hawk file
    | MalformedFile                  // a structural failure while reading a file
    | BadSpectrum                    // a Liulin spectrum with too few or non-integer channels
    | ZeroDivision                   // a division by a zero duration or a zero weighted count

  /** xs in front of a successful list; a failure stays that failure. */
  function Prefixed<T, E>(xs: seq<T>, r: Result<seq<T>, E>): Result<seq<T>, E>
  {
    if r.Success? then Success(xs + r.value) else r
  }

  lemma PrefixedTwice<T, E>(xs: seq<T>, ys: seq<T>, r: Result<seq<T>, E>)
    ensures Prefixed(xs, Prefixed(ys, r)) == Prefixed(xs + ys, r)
  {
    if r.Success? {
      assert xs + (ys + r.value) == (xs + ys) + r.value;
    }
  }

  lemma PrefixedEmpty<T, E>(r: Result<seq<T>, E>)
    ensures Prefixed([], r) == r
  {
    if r.Success? { assert [] + r.value == r.value; }
  }
}
