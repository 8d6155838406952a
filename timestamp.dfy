/**
 * Unit normalisation and the validity check of `window.timestampAPI`
 * (preload.js, isValidTimestamp), with the calendar fact behind its upper bound.
 */
module Timestamp {

  /** The lower bound of the accepted range: 1970-01-01T00:00:00Z in milliseconds. */
  const MinTime: int := 0
  /** The upper bound of the accepted range: 2100-01-01T00:00:00Z in milliseconds. */
  const MaxTime: int := 4102444800000

  const MsPerSecond: int := 1000
  const MsPerDay: int := 24 * 60 * 60 * 1000

  /**
   * The unit selector is a string: exactly "s" means seconds and is scaled by
   * 1000; every other unit string is taken as milliseconds already.
   */
  function Normalize(t: int, unit: string): (ms: int)
    ensures unit == "s" ==> ms == t * MsPerSecond
    ensures unit != "s" ==> ms == t
  {
    if unit == "s" then t * 1000 else t
  }

  /**
   * isValidTimestamp as written: the falsy guard `!timestamp` turns 0 away
   * before the range test, so 0 is rejected although MinTime is 0.
   */
  function IsValidTimestamp(t: int, unit: string): (valid: bool)
    ensures valid <==> t != 0 && MinTime <= Normalize(t, unit) <= MaxTime
  {
    if t == 0 then false
    else
      var ms := Normalize(t, unit);
      ms >= MinTime && ms <= MaxTime
  }

  /** What the validity check accepts, stated per unit on the raw value. */
  lemma ValidRangePerUnit(t: int, unit: string)
    ensures unit == "s" ==> (IsValidTimestamp(t, unit) <==> 1 <= t <= 4102444800)
    ensures unit != "s" ==> (IsValidTimestamp(t, unit) <==> 1 <= t <= 4102444800000)
  {
  }

  /** Zero is within [MinTime, MaxTime] in either unit and is still rejected. */
  lemma ZeroIsRejected(unit: string)
    ensures MinTime <= Normalize(0, unit) <= MaxTime
    ensures !IsValidTimestamp(0, unit)
  {
  }

  /**
   * The range check the bounds and their comment describe: every instant of
   * [1970-01-01, 2100-01-01], the epoch itself included.
   */
  function IsInValidRange(t: int, unit: string): (valid: bool)
    ensures valid <==> MinTime <= Normalize(t, unit) <= MaxTime
  {
    var ms := Normalize(t, unit);
    ms >= MinTime && ms <= MaxTime
  }

  /** The two checks differ exactly at zero. */
  lemma ValidityDiffersOnlyAtZero(t: int, unit: string)
    ensures IsValidTimestamp(t, unit) != IsInValidRange(t, unit) <==> t == 0
  {
  }

  // ----- The calendar behind MaxTime -----

  predicate IsLeapYear(y: int) {
    y % 4 == 0 && (y % 100 != 0 || y % 400 == 0)
  }

  function DaysInYear(y: int): int {
    if IsLeapYear(y) then 366 else 365
  }

  /** Days from 1970-01-01 to January 1st of year y, counted year by year. */
  function DaysSinceEpoch(y: int): (d: nat)
    requires y >= 1970
    decreases y - 1970
  {
    if y == 1970 then 0 else DaysSinceEpoch(y - 1) + DaysInYear(y - 1)
  }

  /** Leap years in [1, y). */
  function LeapYearsBefore(y: int): int {
    (y - 1) / 4 - (y - 1) / 100 + (y - 1) / 400
  }

  lemma LeapYearsStep(y: int)
    requires y >= 1
    ensures LeapYearsBefore(y + 1) - LeapYearsBefore(y) == if IsLeapYear(y) then 1 else 0
  {
    PredecessorFloor(y, 4);
    PredecessorFloor(y, 100);
    PredecessorFloor(y, 400);
  }

  /** Stepping back from y lowers the floor quotient by k exactly when k divides y. */
  lemma PredecessorFloor(y: int, k: int)
    requires k == 4 || k == 100 || k == 400
    ensures (y - 1) / k == if y % k == 0 then y / k - 1 else y / k
  {
    if k == 4 {
      assert y == 4 * (y / 4) + y % 4;
    } else if k == 100 {
      assert y == 100 * (y / 100) + y % 100;
    } else {
      assert y == 400 * (y / 400) + y % 400;
    }
  }

  /** The year-by-year count agrees with the Gregorian closed form. */
  lemma {:induction false} DaysSinceEpochClosedForm(y: int)
    requires y >= 1970
    ensures DaysSinceEpoch(y) == 365 * (y - 1970) + LeapYearsBefore(y) - LeapYearsBefore(1970)
    decreases y - 1970
  {
    if y > 1970 {
      DaysSinceEpochClosedForm(y - 1);
      LeapYearsStep(y - 1);
    }
  }

  /** MaxTime is midnight UTC at the start of 2100 in the Gregorian calendar. */
  lemma MaxTimeIsStartOf2100()
    ensures MaxTime == DaysSinceEpoch(2100) * MsPerDay
  {
    DaysSinceEpochClosedForm(2100);
  }
}
