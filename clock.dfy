/** The simulation's day and time counters. */
module Clocks {

  /** The labels of the days of the week, Monday first. */
  const WEEK_DAYS: seq<string> := ["MON", "TUE", "WED", "THU", "FRI", "SAT", "SUN"]

  /** The day after `d`: one more, reset to 0 once it reaches 7. On a valid day
      this is the next day of the week modulo 7. */
  function NextDay(d: int): (r: int)
    ensures 0 <= d < 7 ==> 0 <= r < 7 && r == (d + 1) % 7
    ensures d < 6 ==> r == d + 1
    ensures d >= 6 ==> r == 0
  {
    if d + 1 >= 7 then 0 else d + 1
  }

  /** The day reached from `d` after `n` calls of `NextDay`. */
  function DaysLater(d: int, n: nat): int
  {
    if n == 0 then d else NextDay(DaysLater(d, n - 1))
  }

  /** From a valid day, `n` increments land on day `(d + n) % 7`. */
  lemma {:induction false} DaysLaterIsModular(d: int, n: nat)
    requires 0 <= d < 7
    ensures DaysLater(d, n) == (d + n) % 7
  {
    if n > 0 {
      DaysLaterIsModular(d, n - 1);
      var k := (d + n - 1) / 7;
      assert d + n - 1 == 7 * k + (d + n - 1) % 7;
    }
  }

  /** Seven increments bring a valid day back to itself. */
  lemma WeekIsCycle(d: int)
    requires 0 <= d < 7
    ensures DaysLater(d, 7) == d
  {
    DaysLaterIsModular(d, 7);
  }

  class Clock {
    var currentDay: int
    var time: int

    /** The day stays a valid index into the week. */
    ghost predicate Valid()
      reads this
    {
      0 <= currentDay < 7
    }

    /** A fresh clock: Monday, time 0. */
    constructor ()
      ensures currentDay == 0 && time == 0 && Valid()
    {
      currentDay := 0;
      time := 0;
    }

    method GetTime() returns (t: int)
      ensures t == time
    {
      t := time;
    }

    /** The label of the current day, defined whenever the day is valid; no
        other day has the same label. */
    function GetDay(): (name: string)
      reads this
      requires Valid()
      ensures name in WEEK_DAYS && |name| == 3
      ensures forall e :: 0 <= e < 7 && WEEK_DAYS[e] == name ==> e == currentDay
    {
      WEEK_DAYS[currentDay]
    }

    /** One more tick; the day is untouched. */
    method IncrementTime()
      modifies this
      ensures time == old(time) + 1 && currentDay == old(currentDay)
    {
      time := time + 1;
    }

    /** The next day, wrapping from Sunday to Monday; the time is untouched. */
    method IncrementDay()
      modifies this
      ensures currentDay == NextDay(old(currentDay)) && time == old(time)
      ensures old(Valid()) ==> Valid()
    {
      currentDay := currentDay + 1;
      if currentDay >= 7 {
        currentDay := 0;
      }
    }
  }
}
