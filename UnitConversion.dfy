/**
 * The metric-prefix unit converter of main/utils.py (`unitConv`).
 * A unit is a prefix followed by ONE base-unit character; only the prefix scales.
 */
module UnitConversion {
  import opened Wrappers

  /**
   * The prefix table as written keys micro as the two characters U+00C2 U+00B5 (a UTF-8
   * micro sign read as Latin-1) and "u"; callers spell micro as the single U+00B5.
   * MicroSignAdded is the evidently intended table, which also knows U+00B5.
   */
  datatype PrefixTable = AsWritten | MicroSignAdded

  const MicroSign: string := "\U{00B5}"
  const MojibakeMicro: string := "\U{00C2}\U{00B5}"

  /**
   * The power of ten of each prefix of the source's dictionary, None for a missing key:
   * "" and the one-letter keys, then the two two-character keys "da" and the micro mojibake.
   */
  function SourcePower(p: string): Option<int>
  {
    if |p| == 0 then Some(0)
    else if |p| == 1 then LetterPower(p[0])
    else if p == "da" then Some(1)
    else if p == MojibakeMicro then Some(-6)
    else None
  }

  function LetterPower(c: char): Option<int>
  {
    if c == 'Y' then Some(24)
    else if c == 'Z' then Some(21)
    else if c == 'E' then Some(18)
    else if c == 'P' then Some(15)
    else if c == 'T' then Some(12)
    else if c == 'G' then Some(9)
    else if c == 'M' then Some(6)
    else if c == 'k' then Some(3)
    else if c == 'h' then Some(2)
    else if c == 'd' then Some(-1)
    else if c == 'c' then Some(-2)
    else if c == 'm' then Some(-3)
    else if c == 'u' then Some(-6)
    else if c == 'n' then Some(-9)
    else if c == 'p' then Some(-12)
    else if c == 'f' then Some(-15)
    else if c == 'a' then Some(-18)
    else if c == 'z' then Some(-21)
    else if c == 'y' then Some(-24)
    else None
  }

  function PrefixPower(t: PrefixTable, p: string): Option<int>
  {
    if t == MicroSignAdded && p == MicroSign then Some(-6) else SourcePower(p)
  }

  /** Python's `u[:-1]`: every character but the last ("" stays ""). */
  function Prefix(u: string): string
  {
    if |u| == 0 then "" else u[..|u| - 1]
  }

  /** x * 10^e over the reals, one factor of ten at a time. */
  function Scale(x: real, e: int): real
    decreases if e >= 0 then e else -e
  {
    if e == 0 then x else if e > 0 then 10.0 * Scale(x, e - 1) else Scale(x, e + 1) / 10.0
  }

  /** `unitConv(nb, u1, u2)`: nb * 10^(pow(u1[:-1]) - pow(u2[:-1])), or the failing lookup. */
  function UnitConv(t: PrefixTable, nb: real, u1: string, u2: string): (r: Result<real, Error>)
    ensures r.Failure? ==> r.error.UnknownPrefix?
  {
    match PrefixPower(t, Prefix(u1))
    case None => Failure(UnknownPrefix(Prefix(u1)))
    case Some(p1) =>
      match PrefixPower(t, Prefix(u2))
      case None => Failure(UnknownPrefix(Prefix(u2)))
      case Some(p2) => Success(Scale(nb, p1 - p2))
  }

  predicate Known(t: PrefixTable, u: string)
  {
    PrefixPower(t, Prefix(u)).Some?
  }

  function Power(t: PrefixTable, u: string): int
    requires Known(t, u)
  {
    PrefixPower(t, Prefix(u)).value
  }

  /** Between two known units the conversion scales by the difference of their powers. */
  lemma UnitConvKnown(t: PrefixTable, x: real, u1: string, u2: string)
    requires Known(t, u1) && Known(t, u2)
    ensures UnitConv(t, x, u1, u2) == Success(Scale(x, Power(t, u1) - Power(t, u2)))
  {
  }

  // ---------------------------------------------------------------- powers of ten

  lemma ScaleSucc(x: real, e: int)
    ensures Scale(x, e + 1) == 10.0 * Scale(x, e)
  {
  }

  /** Scaling by 10^a and then by 10^b is scaling by 10^(a+b). */
  lemma {:induction false} ScaleAdd(x: real, a: int, b: int)
    ensures Scale(Scale(x, a), b) == Scale(x, a + b)
    decreases if b >= 0 then b else -b
  {
    if b > 0 {
      ScaleAdd(x, a, b - 1);
      ScaleSucc(x, a + b - 1);
    } else if b < 0 {
      ScaleAdd(x, a, b + 1);
      ScaleSucc(x, a + b);
      ScaleSucc(Scale(x, a), b);
    }
  }

  // ---------------------------------------------------------------- properties of unitConv

  /** The conversion fails exactly when one of the two prefixes is missing from the table. */
  lemma UnitConvFailsIff(t: PrefixTable, nb: real, u1: string, u2: string)
    ensures UnitConv(t, nb, u1, u2).Success? <==> Known(t, u1) && Known(t, u2)
    ensures !Known(t, u1) ==> UnitConv(t, nb, u1, u2) == Failure(UnknownPrefix(Prefix(u1)))
    ensures Known(t, u1) && !Known(t, u2) ==> UnitConv(t, nb, u1, u2) == Failure(UnknownPrefix(Prefix(u2)))
  {
  }

  /** Converting to the same unit is the identity, for every unit whose prefix is known. */
  lemma UnitConvIdentity(t: PrefixTable, x: real, u: string)
    requires Known(t, u)
    ensures UnitConv(t, x, u, u) == Success(x)
  {
  }

  /** Converting a to b and then b to c is converting a to c. */
  lemma UnitConvCompose(t: PrefixTable, x: real, a: string, b: string, c: string)
    requires Known(t, a) && Known(t, b) && Known(t, c)
    ensures UnitConv(t, UnitConv(t, x, a, b).value, b, c) == UnitConv(t, x, a, c)
  {
    UnitConvKnown(t, x, a, b);
    UnitConvKnown(t, Scale(x, Power(t, a) - Power(t, b)), b, c);
    UnitConvKnown(t, x, a, c);
    ScaleAdd(x, Power(t, a) - Power(t, b), Power(t, b) - Power(t, c));
  }

  /** Over the reals the conversion round-trips exactly. */
  lemma UnitConvRoundTrip(t: PrefixTable, x: real, a: string, b: string)
    requires Known(t, a) && Known(t, b)
    ensures UnitConv(t, UnitConv(t, x, a, b).value, b, a) == Success(x)
  {
    UnitConvCompose(t, x, a, b, a);
    UnitConvIdentity(t, x, a);
  }

  /** The prefix is everything but the last character: "daX" scales by ten, "C" not at all. */
  lemma UnitConvExamples(x: real)
    ensures UnitConv(AsWritten, x, "daX", "X") == Success(x * 10.0)
    ensures UnitConv(AsWritten, x, "mV", "V") == Success(x / 1000.0)
    ensures UnitConv(AsWritten, x, "C", "C") == Success(x)
  {
    assert Prefix("daX") == "da";
    assert Prefix("mV") == "m";
    assert Prefix("V") == "";
    assert Scale(x, -3) == x / 1000.0;
  }

  /**
   * As written, the single micro sign is not a key of the table, so every conversion whose
   * target is "µA", "µG" or "µS" fails, whatever the value and the source unit.
   */
  lemma MicroSignUnknownAsWritten(x: real, u: string, base: char)
    ensures Prefix(MicroSign + [base]) == MicroSign
    ensures UnitConv(AsWritten, x, u, MicroSign + [base]).Failure?
    ensures UnitConv(AsWritten, x, MicroSign + [base], u).Failure?
  {
    var w := MicroSign + [base];
    assert Prefix(w) == MicroSign;
    assert MicroSign != MojibakeMicro by { assert |MicroSign| != |MojibakeMicro|; }
  }

  /** With the micro sign added, micro units convert like "u" units and round-trip. */
  lemma MicroSignKnownWhenAdded(x: real, base: char)
    ensures UnitConv(MicroSignAdded, x, MicroSign + [base], "u" + [base]) == Success(x)
    ensures UnitConv(MicroSignAdded, x, "m" + [base], MicroSign + [base]) == Success(x * 1000.0)
  {
    assert Prefix(MicroSign + [base]) == MicroSign;
    assert Prefix("u" + [base]) == "u";
    assert Prefix("m" + [base]) == "m";
    assert Scale(x, 3) == x * 1000.0;
  }
}
