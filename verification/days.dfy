/** Calendar arithmetic on day numbers. A date is a day number; an instant is a count of
    minutes, midnight of day `d` being `d * MinutesPerDay`. */
module Days {

  const MinutesPerDay: int := 1440

  /** Midnight at the start of day `d` (`new Date('yyyy-MM-dd')`). */
  function Midnight(d: int): int
  {
    d * MinutesPerDay
  }

  /** The calendar day an instant falls on (`format(t, 'yyyy-MM-dd')`). */
  function DayOf(t: int): (d: int)
    ensures Midnight(d) <= t < Midnight(d + 1)
  {
    t / MinutesPerDay
  }

  /** Comparing an instant with a midnight is comparing its day with that midnight's day, except
      that the midnight itself lies on its own day. */
  lemma InstantVersusMidnight(t: int, d: int)
    ensures t >= Midnight(d) <==> DayOf(t) >= d
    ensures t <= Midnight(d) <==> DayOf(t) < d || t == Midnight(d)
  {
    var e := DayOf(t);
    if e >= d {
      assert Midnight(e) >= Midnight(d);
    } else {
      assert Midnight(e + 1) <= Midnight(d);
    }
  }

  /** Every day from `start` to `end` inclusive, one per day, in order; empty when `end` is
      before `start`. */
  function DayRange(start: int, end: int): (r: seq<int>)
    ensures |r| == if start <= end then end - start + 1 else 0
    ensures forall i :: 0 <= i < |r| ==> r[i] == start + i
    decreases end - start
  {
    if start > end then [] else [start] + DayRange(start + 1, end)
  }

  /** `differenceInDays(end, start) + 1`: the number of days a trip spans, both ends counted. */
  function DurationInDays(start: int, end: int): (r: int)
    ensures start <= end ==> r == |DayRange(start, end)|
    ensures start > end ==> r <= 0
  {
    end - start + 1
  }

  /** A day is in the range exactly when it lies between the two ends. */
  lemma {:induction false} InDayRange(start: int, end: int, d: int)
    ensures d in DayRange(start, end) <==> start <= d <= end
  {
    var r := DayRange(start, end);
    if start <= d <= end {
      assert r[d - start] == d;
    }
  }
}
