/**
 * Elapsed time as the service measures it. Timestamps are whole seconds (the value `datetime.now()`
 * would give, passed in by the caller). The service compares `(now - past).seconds`, and a Python
 * `timedelta` keeps in `.seconds` only the part of the difference below one day: the whole days go to
 * `.days`, and `.seconds` is never negative, even when `past` lies in the future.
 */
module Timing {

  const SecondsPerDay: int := 86400

  /** `(now - past).seconds`: the elapsed seconds modulo one day, always in [0, 86400). */
  function TimedeltaSeconds(now: int, past: int): (s: int)
    ensures 0 <= s < SecondsPerDay
    ensures (now - past - s) % SecondsPerDay == 0
  {
    (now - past) % SecondsPerDay
  }

  /** Below one day, `.seconds` is the true elapsed time. */
  lemma TimedeltaSecondsWithinDay(now: int, past: int)
    requires 0 <= now - past < SecondsPerDay
    ensures TimedeltaSeconds(now, past) == now - past
  {
  }

  /** `.seconds` forgets whole days: a timestamp one day older reads the same. */
  lemma TimedeltaSecondsForgetsDays(now: int, past: int)
    ensures TimedeltaSeconds(now, past - SecondsPerDay) == TimedeltaSeconds(now, past)
  {
    assert now - (past - SecondsPerDay) == (now - past) + SecondsPerDay;
  }
}
