/**
 * Local calendar days under a fixed UTC offset, and the "tomorrow" window (src/utils/date.js).
 *
 * Instants are whole seconds since the Unix epoch. Adding the location's offset to a UTC
 * instant gives the "shifted" instant: the local wall clock read as if it were UTC. Day
 * boundaries are computed, and compared, in that shifted frame.
 */
module LocalDay {

  const SecondsPerDay: int := 24 * 3600

  /** Midnight, in the shifted frame, of the local day that contains `timestamp`. */
  function LocalDayStart(timestamp: int, offset: int): (start: int)
    ensures start % SecondsPerDay == 0
    ensures start <= timestamp + offset < start + SecondsPerDay
  {
    (timestamp + offset) / SecondsPerDay * SecondsPerDay
  }

  /** A day boundary at most one day below the shifted instant is its day start. */
  lemma DayStartUnique(timestamp: int, offset: int, boundary: int)
    requires boundary % SecondsPerDay == 0
    requires boundary <= timestamp + offset < boundary + SecondsPerDay
    ensures boundary == LocalDayStart(timestamp, offset)
  {
    var start := LocalDayStart(timestamp, offset);
    var a, b := boundary / SecondsPerDay, start / SecondsPerDay;
    assert boundary == a * SecondsPerDay;
    assert start == b * SecondsPerDay;
    assert (a - b) * SecondsPerDay == boundary - start;
  }

  /** A shifted instant that already lies on a day boundary is its own day start. */
  lemma DayStartOnBoundary(timestamp: int, offset: int)
    requires (timestamp + offset) % SecondsPerDay == 0
    ensures LocalDayStart(timestamp, offset) == timestamp + offset
  {
    DayStartUnique(timestamp, offset, timestamp + offset);
  }

  /** Taking the day start of a day start changes nothing. */
  lemma DayStartIdempotent(timestamp: int, offset: int)
    ensures LocalDayStart(LocalDayStart(timestamp, offset), 0) == LocalDayStart(timestamp, offset)
  {
    var start := LocalDayStart(timestamp, offset);
    DayStartUnique(start, 0, start);
  }

  /** The shifted bounds of local "tomorrow" as seen at `now`: `[tomorrowStart, dayAfterStart)`. */
  function TomorrowWindow(now: int, offset: int): (window: (int, int))
    ensures window.0 % SecondsPerDay == 0
    ensures now + offset < window.0 <= now + offset + SecondsPerDay
    ensures window.0 == LocalDayStart(now, offset) + SecondsPerDay
    ensures window.1 == window.0 + SecondsPerDay
  {
    var todayStart := LocalDayStart(now, offset);
    var tomorrowStart := todayStart + SecondsPerDay;
    var dayAfterStart := tomorrowStart + SecondsPerDay;
    (tomorrowStart, dayAfterStart)
  }

  /** Does the sample at UTC instant `slot` fall on the local day after the one containing `now`? */
  predicate IsTomorrowSlot(slot: int, offset: int, now: int)
    ensures IsTomorrowSlot(slot, offset, now) ==> now < slot < now + 2 * SecondsPerDay
  {
    var (tomorrowStart, dayAfterStart) := TomorrowWindow(now, offset);
    var slotLocal := slot + offset;
    tomorrowStart <= slotLocal < dayAfterStart
  }

  /** The window test is the same as "the slot's local day is the day after now's local day". */
  lemma TomorrowIsNextLocalDay(slot: int, offset: int, now: int)
    ensures IsTomorrowSlot(slot, offset, now)
        <==> LocalDayStart(slot, offset) == LocalDayStart(now, offset) + SecondsPerDay
  {
    var tomorrowStart := LocalDayStart(now, offset) + SecondsPerDay;
    if IsTomorrowSlot(slot, offset, now) {
      DayStartUnique(slot, offset, tomorrowStart);
    }
  }

  /** The window is half-open: its first second is in, the first second of the day after is out. */
  lemma WindowHalfOpen(offset: int, now: int)
    ensures IsTomorrowSlot(TomorrowWindow(now, offset).0 - offset, offset, now)
    ensures IsTomorrowSlot(TomorrowWindow(now, offset).1 - 1 - offset, offset, now)
    ensures !IsTomorrowSlot(TomorrowWindow(now, offset).0 - 1 - offset, offset, now)
    ensures !IsTomorrowSlot(TomorrowWindow(now, offset).1 - offset, offset, now)
  {
  }

  /** Only shifted instants matter: the same test with the offset folded into both instants. */
  lemma ShiftInvariance(slot: int, offset: int, now: int)
    ensures IsTomorrowSlot(slot, offset, now) == IsTomorrowSlot(slot + offset, 0, now + offset)
  {
  }

  /** The window is an interval: whatever lies between two tomorrow slots is a tomorrow slot. */
  lemma WindowConvex(a: int, b: int, c: int, offset: int, now: int)
    requires a <= b <= c
    requires IsTomorrowSlot(a, offset, now) && IsTomorrowSlot(c, offset, now)
    ensures IsTomorrowSlot(b, offset, now)
  {
  }

  /** The same absolute instant can be tomorrow under one offset and not under another. */
  lemma OffsetSensitivity()
    ensures IsTomorrowSlot(171000, 0, 0)
    ensures !IsTomorrowSlot(171000, 7200, 0)
  {
  }

  /**
   * Two samples one day apart are never both tomorrow slots under one reading of the clock,
   * but are when the clock is read once per sample and passes midnight in between.
   */
  lemma OneClockReading(now: int)
    ensures !(IsTomorrowSlot(86400, 0, now) && IsTomorrowSlot(172800, 0, now))
    ensures IsTomorrowSlot(86400, 0, 86399) && IsTomorrowSlot(172800, 0, 86400)
  {
  }

  /**
   * The corrected test on milliseconds, over the corrected day start: the day start scaled
   * by 1000 and 24 * 3600 * 1000 per day. It agrees with the test on seconds.
   */
  predicate IsTomorrowSlotMs(slot: int, offset: int, now: int)
  {
    var todayStartLocal := LocalDayStart(now, offset) * 1000;
    var tomorrowStartLocal := todayStartLocal + 24 * 3600 * 1000;
    var dayAfterStartLocal := tomorrowStartLocal + 24 * 3600 * 1000;
    var slotLocalMs := (slot + offset) * 1000;
    slotLocalMs >= tomorrowStartLocal && slotLocalMs < dayAfterStartLocal
  }

  lemma MillisecondsAgree(slot: int, offset: int, now: int)
    ensures IsTomorrowSlotMs(slot, offset, now) == IsTomorrowSlot(slot, offset, now)
  {
    var d := LocalDayStart(now, offset);
    var x := slot + offset;
    assert (x * 1000 >= (d + SecondsPerDay) * 1000) == (x >= d + SecondsPerDay);
    assert (x * 1000 < (d + 2 * SecondsPerDay) * 1000) == (x < d + 2 * SecondsPerDay);
  }

  /** `n` hourly instants, the first at `first`. */
  function Hourly(first: int, n: nat): (slots: seq<int>)
    ensures |slots| == n
    ensures forall k :: 0 <= k < n ==> slots[k] == first + 3600 * k
  {
    seq(n, k => first + 3600 * k)
  }

  /** How many of `slots` are tomorrow slots. */
  function CountTomorrow(slots: seq<int>, offset: int, now: int): (count: nat)
    ensures count <= |slots|
  {
    if slots == [] then 0
    else
      CountTomorrow(slots[..|slots| - 1], offset, now)
      + (if IsTomorrowSlot(slots[|slots| - 1], offset, now) then 1 else 0)
  }

  lemma {:induction false} HourlyCount(offset: int, now: int, n: nat)
    requires n <= 48
    ensures CountTomorrow(Hourly(LocalDayStart(now, offset) - offset, n), offset, now)
         == if n <= 24 then 0 else n - 24
  {
    if n > 0 {
      var first := LocalDayStart(now, offset) - offset;
      assert Hourly(first, n)[..n - 1] == Hourly(first, n - 1);
      HourlyCount(offset, now, n - 1);
    }
  }

  /**
   * Forty-eight hourly samples from the start of today (local) split into 24 tomorrow
   * slots and 24 others.
   */
  lemma HourlySplit(offset: int, now: int)
    ensures var slots := Hourly(LocalDayStart(now, offset) - offset, 48);
      CountTomorrow(slots, offset, now) == 24 && |slots| - CountTomorrow(slots, offset, now) == 24
  {
    HourlyCount(offset, now, 48);
  }
}
