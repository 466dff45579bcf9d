/**
 * The time-unit helpers of src/utilities.ts: a count of seconds, minutes,
 * hours, days or weeks, as milliseconds. JavaScript numbers are taken to be
 * whole here.
 */
module Utilities {

  function Seconds(howMany: int): (ms: int)
    ensures ms == 1000 * howMany
  {
    howMany * 1000
  }

  /** Each minute is sixty seconds. */
  function Minutes(howMany: int): (ms: int)
    ensures ms == 60 * Seconds(howMany) == 60000 * howMany
  {
    60 * howMany * Seconds(1)
  }

  /** Each hour is sixty minutes. */
  function Hours(howMany: int): (ms: int)
    ensures ms == 60 * Minutes(howMany) == 3600000 * howMany
  {
    60 * howMany * Minutes(1)
  }

  /** Each day is twenty-four hours. */
  function Days(howMany: int): (ms: int)
    ensures ms == 24 * Hours(howMany) == 86400000 * howMany
  {
    24 * howMany * Hours(1)
  }

  /** Each week is seven days. */
  function Weeks(howMany: int): (ms: int)
    ensures ms == 7 * Days(howMany) == 604800000 * howMany
  {
    7 * howMany * Days(1)
  }

  /** Every helper sends 0 to 0, adds up, and keeps order. */
  lemma ConversionsAreLinear(a: int, b: int)
    ensures Seconds(0) == Minutes(0) == Hours(0) == Days(0) == Weeks(0) == 0
    ensures Seconds(a + b) == Seconds(a) + Seconds(b)
    ensures Minutes(a + b) == Minutes(a) + Minutes(b)
    ensures Hours(a + b) == Hours(a) + Hours(b)
    ensures Days(a + b) == Days(a) + Days(b)
    ensures Weeks(a + b) == Weeks(a) + Weeks(b)
    ensures a <= b ==> Seconds(a) <= Seconds(b) && Minutes(a) <= Minutes(b) && Hours(a) <= Hours(b)
    ensures a <= b ==> Days(a) <= Days(b) && Weeks(a) <= Weeks(b)
  {
  }
}
