/**
 * The boolean with a shelf life of `away_from_home/expirer.py`. Every clock read
 * (`datetime.datetime.now()`) is an explicit timestamp in whole seconds, and the
 * period is a number of seconds.
 */
module Expirer {
  import opened Wrappers

  /** The two exceptions the source raises. */
  datatype Error = ValueError | TypeError

  /** The Python values a caller may hand to the setter; only `PyBool` is accepted. */
  datatype PyValue = PyBool(b: bool) | PyNone | PyInt(i: int) | PyStr(s: string)

  class ExpiringBool {
    const period: int
    var value: Option<bool>
    var lastSet: Option<int>

    /** A value is stored exactly when a set time is recorded. */
    ghost predicate Valid()
      reads this
    {
      value.Some? <==> lastSet.Some?
    }

    /** A new ExpiringBool has been set neither with a value nor at a time. */
    constructor (period: int)
      ensures Valid()
      ensures this.period == period && value == None && lastSet == None
    {
      this.period := period;
      value := None;
      lastSet := None;
    }

    /**
     * `_is_stale`: a `ValueError` before the first set; afterwards stale exactly when
     * strictly more than `period` seconds have passed since the last set.
     */
    function IsStale(timestamp: int): (r: Result<bool, Error>)
      reads this
      ensures r.Failure? <==> lastSet.None?
      ensures r.Failure? ==> r.error == ValueError
      ensures r.Success? ==> (r.value <==> lastSet.value < timestamp - period)
    {
      match lastSet
      case None => Failure(ValueError)
      case Some(t) => Success(timestamp - t > period)
    }

    /**
     * The `value` getter read at `timestamp`: the stored bool while fresh, its
     * negation once stale, and the `ValueError` of `IsStale` before any set.
     */
    function Value(timestamp: int): (r: Result<bool, Error>)
      requires Valid()
      reads this
      ensures r.Failure? <==> lastSet.None?
      ensures r.Failure? ==> r.error == ValueError
      ensures lastSet.Some? && timestamp <= lastSet.value + period ==> r == Success(value.value)
      ensures lastSet.Some? && timestamp > lastSet.value + period ==> r == Success(!value.value)
    {
      match IsStale(timestamp)
      case Failure(e) => Failure(e)
      case Success(stale) => if !stale then Success(value.value) else Success(!value.value)
    }

    /**
     * `_set_value` (and the `value` setter, which passes the current time): a bool is
     * stored together with `timestamp`; anything else raises `TypeError` and leaves
     * the object as it was.
     */
    method SetValue(v: PyValue, timestamp: int) returns (r: Outcome<Error>)
      modifies this
      ensures v.PyBool? ==> r == Pass && value == Some(v.b) && lastSet == Some(timestamp)
      ensures !v.PyBool? ==> r == Fail(TypeError) && value == old(value) && lastSet == old(lastSet)
      ensures v.PyBool? || old(Valid()) ==> Valid()
    {
      if !v.PyBool? {
        return Fail(TypeError);
      }
      value := Some(v.b);
      lastSet := Some(timestamp);
      r := Pass;
    }
  }

  /** Reading at the very time of a set gives back the value just set (for a non-negative period). */
  lemma ReadAtSetTime(e: ExpiringBool, v: bool, t: int)
    requires e.value == Some(v) && e.lastSet == Some(t)
    requires e.period >= 0
    ensures e.Valid() && e.Value(t) == Success(v)
  {
  }

  /** Once stale, an ExpiringBool stays stale at every later time until it is set again. */
  lemma StalenessPersists(e: ExpiringBool, t1: int, t2: int)
    requires t1 <= t2
    requires e.IsStale(t1) == Success(true)
    ensures e.IsStale(t2) == Success(true)
  {
  }

  /**
   * The boundaries exercised with a five-second period: four seconds after the set the
   * value is fresh, exactly five seconds after it is still fresh, eight seconds after it is stale.
   */
  lemma FiveSecondBoundaries(e: ExpiringBool, t: int, elapsed: int)
    requires e.period == 5 && e.lastSet == Some(t - elapsed)
    ensures elapsed == 4 ==> e.IsStale(t) == Success(false)
    ensures elapsed == 5 ==> e.IsStale(t) == Success(false)
    ensures elapsed == 8 ==> e.IsStale(t) == Success(true)
  {
  }
}
