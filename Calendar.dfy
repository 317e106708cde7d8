/**
 * Instants and the midnight-rollover anchoring `date_inc` of main/utils.py.
 * An instant is a whole number of seconds; its calendar day and time of day are the
 * quotient and remainder by the length of a day.
 */
module Calendar {

  const SecondsPerHour: int := 3600
  const SecondsPerDay: int := 86400

  function Day(t: int): int
  {
    t / SecondsPerDay
  }

  function TimeOfDay(t: int): (r: int)
    ensures 0 <= r < SecondsPerDay
  {
    t % SecondsPerDay
  }

  /** `datetime.combine(day, time of day)`. */
  function Combine(day: int, tod: int): int
  {
    day * SecondsPerDay + tod
  }

  lemma CombineSplits(day: int, tod: int)
    requires 0 <= tod < SecondsPerDay
    ensures Day(Combine(day, tod)) == day && TimeOfDay(Combine(day, tod)) == tod
  {
  }

  /**
   * `date_inc(date, time)`: the time of day of `time` on the calendar day of `date`, moved to
   * the next day when that instant lies more than one hour before `date`.
   */
  function DateInc(date: int, time: int): int
  {
    var ret := Combine(Day(date), TimeOfDay(time));
    if ret < date && date - ret > SecondsPerHour then ret + SecondsPerDay else ret
  }

  /**
   * The anchored instant keeps the clock time of `time`, falls on `date`'s day or the next one,
   * lies in [date - 1h, date + 1 day), and moves to the next day exactly when the same-day
   * instant would be more than an hour before `date`.
   */
  lemma DateIncProperties(date: int, time: int)
    ensures TimeOfDay(DateInc(date, time)) == TimeOfDay(time)
    ensures Day(DateInc(date, time)) == Day(date) || Day(DateInc(date, time)) == Day(date) + 1
    ensures date - SecondsPerHour <= DateInc(date, time) < date + SecondsPerDay
    ensures Day(DateInc(date, time)) == Day(date) + 1
        <==> Combine(Day(date), TimeOfDay(time)) < date - SecondsPerHour
  {
    var d, tod := Day(date), TimeOfDay(time);
    CombineSplits(d, tod);
    CombineSplits(d + 1, tod);
    assert Combine(d + 1, tod) == Combine(d, tod) + SecondsPerDay;
    assert Combine(d, 0) <= date < Combine(d, 0) + SecondsPerDay;
  }
}
