/**
 * The bucket choice of `_getRelativeTime` (preload.js): the signed distance
 * from now is described in the largest fixed-length unit it reaches.
 */
module RelativeTime {

  datatype TimeUnit = Year | Month | Day | Hour | Minute | Second

  /** One entry of the bucket table: a unit and its fixed length in milliseconds. */
  datatype Interval = Interval(unit: TimeUnit, ms: int)

  /** A relative-time description before localisation. */
  datatype Relative = Bucket(unit: TimeUnit, count: int) | JustNow

  /** The bucket table, largest first (a 365-day year and a 30-day month). */
  const Intervals: seq<Interval> := [
    Interval(Year, 365 * 24 * 60 * 60 * 1000),
    Interval(Month, 30 * 24 * 60 * 60 * 1000),
    Interval(Day, 24 * 60 * 60 * 1000),
    Interval(Hour, 60 * 60 * 1000),
    Interval(Minute, 60 * 1000),
    Interval(Second, 1000)
  ]

  /** Position of a unit in the table. */
  function Rank(u: TimeUnit): (i: nat)
    ensures i < |Intervals| && Intervals[i].unit == u
  {
    match u
    case Year => 0
    case Month => 1
    case Day => 2
    case Hour => 3
    case Minute => 4
    case Second => 5
  }

  /** Length of a unit in milliseconds, taken from the table. */
  function Length(u: TimeUnit): (ms: int)
    ensures ms >= 1000
  {
    Intervals[Rank(u)].ms
  }

  function Abs(x: int): (a: nat)
    ensures a == x || a == -x
  {
    if x < 0 then -x else x
  }

  /** A magnitude carrying the sign of the distance (the past and zero count as negative). */
  function Signed(diffMs: int, count: int): int {
    if diffMs > 0 then count else -count
  }

  /** For non-negative a, the floor count a / len reaches 1 exactly when a reaches len. */
  lemma FloorCountAtLeastOne(a: int, len: int)
    requires a >= 0 && len > 0
    ensures a / len >= 1 <==> a >= len
  {
    var q, m := a / len, a % len;
    assert a == len * q + m && 0 <= m < len;
    if q <= 0 {
      assert len * q <= 0;
    } else {
      assert len * q >= len;
    }
  }

  /**
   * Reference definition by thresholds: the first unit whose length the
   * distance reaches, with the count signed like the distance.
   */
  function Classify(diffMs: int): (r: Relative)
  {
    var a := Abs(diffMs);
    if a >= Length(Year) then Bucket(Year, Signed(diffMs, a / Length(Year)))
    else if a >= Length(Month) then Bucket(Month, Signed(diffMs, a / Length(Month)))
    else if a >= Length(Day) then Bucket(Day, Signed(diffMs, a / Length(Day)))
    else if a >= Length(Hour) then Bucket(Hour, Signed(diffMs, a / Length(Hour)))
    else if a >= Length(Minute) then Bucket(Minute, Signed(diffMs, a / Length(Minute)))
    else if a >= Length(Second) then Bucket(Second, Signed(diffMs, a / Length(Second)))
    else JustNow
  }

  /**
   * _getRelativeTime(date) with now and the phrase formatter abstracted:
   * scan the table largest first and stop at the first floor count that is
   * at least 1; "just now" when none is.
   */
  method GetRelativeTime(dateMs: int, nowMs: int) returns (r: Relative)
    ensures r == Classify(dateMs - nowMs)
  {
    var diffMs := dateMs - nowMs;
    var i := 0;
    while i < |Intervals|
      invariant 0 <= i <= |Intervals|
      invariant forall j :: 0 <= j < i ==> Abs(diffMs) < Intervals[j].ms
    {
      var interval := Intervals[i];
      var count := Abs(diffMs) / interval.ms;
      FloorCountAtLeastOne(Abs(diffMs), interval.ms);
      if count >= 1 {
        return Bucket(interval.unit, if diffMs > 0 then count else -count);
      }
      i := i + 1;
    }
    return JustNow;
  }

  /** "Just now" exactly when the distance is under one second. */
  lemma JustNowIff(diffMs: int)
    ensures Classify(diffMs) == JustNow <==> Abs(diffMs) < 1000
  {
  }

  /**
   * A bucket carries the floor count of its unit, that count is at least 1,
   * and every larger unit has floor count 0.
   */
  lemma BucketIsFirstNonZero(diffMs: int)
    requires Classify(diffMs).Bucket?
    ensures var u := Classify(diffMs).unit;
      && Abs(Classify(diffMs).count) == Abs(diffMs) / Length(u)
      && Abs(diffMs) / Length(u) >= 1
      && forall v :: Rank(v) < Rank(u) ==> Abs(diffMs) / Length(v) == 0
  {
    var a := Abs(diffMs);
    var u := Classify(diffMs).unit;
    FloorCountAtLeastOne(a, Length(u));
    forall v | Rank(v) < Rank(u) ensures a / Length(v) == 0 {
      assert a < Length(v);
      FloorBelowLength(a, Length(v));
    }
  }

  lemma FloorBelowLength(a: int, len: int)
    requires 0 <= a < len
    ensures a / len == 0
  {
  }

  /** The count is positive for the future and negative for the past. */
  lemma CountSign(diffMs: int)
    requires Classify(diffMs).Bucket?
    ensures Classify(diffMs).count > 0 <==> diffMs > 0
    ensures Classify(diffMs).count < 0 <==> diffMs < 0
  {
  }

  /**
   * The bucket properties determine the result: any unit whose floor count is
   * at least 1 while every larger unit's is 0 is the unit Classify picks.
   */
  lemma BucketUnique(diffMs: int, u: TimeUnit)
    requires Abs(diffMs) / Length(u) >= 1
    requires forall v :: Rank(v) < Rank(u) ==> Abs(diffMs) / Length(v) == 0
    ensures Classify(diffMs).Bucket? && Classify(diffMs).unit == u
  {
    var a := Abs(diffMs);
    assert a >= Length(u);
    if Rank(u) > 0 { assert a / Length(Year) == 0; }
    if Rank(u) > 1 { assert a / Length(Month) == 0; }
    if Rank(u) > 2 { assert a / Length(Day) == 0; }
    if Rank(u) > 3 { assert a / Length(Hour) == 0; }
    if Rank(u) > 4 { assert a / Length(Minute) == 0; }
  }

  /** Ninety days ago falls in the month bucket with count -3. */
  lemma NinetyDaysAgo()
    ensures Classify(-90 * 24 * 60 * 60 * 1000) == Bucket(Month, -3)
  {
  }
}
