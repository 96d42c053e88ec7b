/**
 * Reducing tomorrow's forecast samples to a rain verdict (the aggregation part of
 * checkRainTomorrow in src/services/weather.service.js).
 */
module Rain {
  import opened Wrappers

  /** One forecast interval: its UTC instant, probability of precipitation and rain readings. */
  datatype Sample = Sample(dt: int, pop: Option<real>, rain3h: Option<real>, rain1h: Option<real>)

  /** One entry of `rainySlots`. */
  datatype RainySlot = RainySlot(time: int, pop: real, volume: real)

  /** The `tomorrow` part of the service's answer. */
  datatype RainSummary = RainSummary(willRain: bool, highestProbability: real, rainySlots: seq<RainySlot>)

  /** Probability at or above which a slot counts as rainy. */
  const RainThreshold: real := 0.3

  /** A rain reading JavaScript treats as true: present and not zero. */
  predicate NonzeroReading(reading: Option<real>)
  {
    reading.Some? && reading.value != 0.0
  }

  /** The rain volume of a sample: the 3-hour reading, else the 1-hour reading, else 0. */
  function Volume(s: Sample): (v: real)
    ensures NonzeroReading(s.rain3h) ==> v == s.rain3h.value
    ensures !NonzeroReading(s.rain3h) && NonzeroReading(s.rain1h) ==> v == s.rain1h.value
    ensures v == 0.0 <==> !NonzeroReading(s.rain3h) && !NonzeroReading(s.rain1h)
  {
    if NonzeroReading(s.rain3h) then s.rain3h.value
    else if NonzeroReading(s.rain1h) then s.rain1h.value
    else 0.0
  }

  /** The sample's probability of precipitation, 0 when missing. */
  function PopOf(s: Sample): (p: real)
    ensures s.pop.None? ==> p == 0.0
    ensures s.pop.Some? ==> p == s.pop.value
  {
    s.pop.GetOr(0.0)
  }

  /**
   * Rain is expected in a slot when it has volume or a probability at the threshold. In terms
   * of the raw readings: a present probability of at least 0.3, a positive 3-hour reading, or a
   * positive 1-hour reading when the 3-hour one is missing or zero (a non-zero 3-hour reading,
   * even a negative one, hides the 1-hour reading).
   */
  predicate Rainy(s: Sample)
    ensures Rainy(s) <==>
      || (s.pop.Some? && s.pop.value >= RainThreshold)
      || (NonzeroReading(s.rain3h) && s.rain3h.value > 0.0)
      || (!NonzeroReading(s.rain3h) && NonzeroReading(s.rain1h) && s.rain1h.value > 0.0)
  {
    Volume(s) > 0.0 || PopOf(s) >= RainThreshold
  }

  /**
   * The number of hundredths `x.toFixed(2)` writes, on an exact real: the nearest whole
   * number of hundredths, a tie going to the one of larger magnitude.
   */
  function Hundredths(x: real): (n: int)
    ensures x * 100.0 - 0.5 <= n as real <= x * 100.0 + 0.5
    ensures x >= 0.0 ==> x * 100.0 - 0.5 < n as real
    ensures x < 0.0 ==> n as real < x * 100.0 + 0.5
  {
    if x < 0.0 then -((-x) * 100.0 + 0.5).Floor else (x * 100.0 + 0.5).Floor
  }

  /** `Number(x.toFixed(2))`: `x` rounded to two decimals. */
  function Round2(x: real): (r: real)
    ensures r * 100.0 == Hundredths(x) as real
    ensures x - 0.005 <= r <= x + 0.005
  {
    Hundredths(x) as real / 100.0
  }

  /** Values already on two decimals are left as they are. */
  lemma Round2Fixes(k: int)
    ensures Round2(k as real / 100.0) == k as real / 100.0
  {
    var x := k as real / 100.0;
    assert x * 100.0 == k as real;
    var d := Hundredths(x) - k;
    assert -0.5 <= d as real <= 0.5;
    assert d == 0;
  }

  /** The threshold is inclusive, and volume or probability alone triggers rain. */
  lemma RainTriggers(t: int)
    ensures Rainy(Sample(t, Some(0.30), None, None))
    ensures !Rainy(Sample(t, Some(0.29), None, None))
    ensures !Rainy(Sample(t, Some(0.29), Some(0.0), Some(0.0)))
    ensures Rainy(Sample(t, Some(0.29), None, Some(0.2)))
    ensures Rainy(Sample(t, None, Some(1.5), None))
  {
  }

  /** The entry reported for a rainy sample. */
  function Entry(s: Sample): (e: RainySlot)
    ensures e.time == s.dt && e.volume == Volume(s)
    ensures e.pop == Round2(PopOf(s))
  {
    RainySlot(s.dt, Round2(PopOf(s)), Volume(s))
  }

  /** Entries for the rainy samples of `slots`, in the order they appear. */
  function RainyEntries(slots: seq<Sample>): (entries: seq<RainySlot>)
    ensures |entries| <= |slots|
    ensures |entries| == |slots| <==> forall s :: s in slots ==> Rainy(s)
  {
    if slots == [] then []
    else
      var last := slots[|slots| - 1];
      assert slots == slots[..|slots| - 1] + [last];
      RainyEntries(slots[..|slots| - 1]) + (if Rainy(last) then [Entry(last)] else [])
  }

  /** The entries are exactly those of the rainy samples. */
  lemma {:induction false} RainyEntriesMembers(slots: seq<Sample>)
    ensures forall e :: e in RainyEntries(slots) <==> exists s :: s in slots && Rainy(s) && e == Entry(s)
  {
    if slots != [] {
      var init, last := slots[..|slots| - 1], slots[|slots| - 1];
      assert slots == init + [last];
      RainyEntriesMembers(init);
      forall e | exists s :: s in slots && Rainy(s) && e == Entry(s)
        ensures e in RainyEntries(slots)
      {
        var s :| s in slots && Rainy(s) && e == Entry(s);
        if s != last {
          assert s in init;
        }
      }
    }
  }

  /** There are rainy entries exactly when some sample is rainy. */
  lemma RainyEntriesNonEmpty(slots: seq<Sample>)
    ensures RainyEntries(slots) != [] <==> exists s :: s in slots && Rainy(s)
  {
    RainyEntriesMembers(slots);
    if exists s :: s in slots && Rainy(s) {
      var s :| s in slots && Rainy(s);
      assert Entry(s) in RainyEntries(slots);
    }
  }

  /** The larger of two reals, as Math.max. */
  function Max(a: real, b: real): (r: real)
    ensures r >= a && r >= b
    ensures r == a || r == b
  {
    if a < b then b else a
  }

  /**
   * The left fold `reduce((m, s) => Math.max(m, s.pop ?? 0), 0)`: the highest probability over
   * all of `slots`, missing probabilities counting as 0, and 0 for no slots.
   */
  function MaxPop(slots: seq<Sample>): (m: real)
    ensures m >= 0.0
    ensures forall s :: s in slots ==> PopOf(s) <= m
    ensures m == 0.0 || exists s :: s in slots && PopOf(s) == m
  {
    if slots == [] then 0.0
    else
      var init := slots[..|slots| - 1];
      assert forall s :: s in init ==> s in slots;
      assert slots == init + [slots[|slots| - 1]];
      Max(MaxPop(init), PopOf(slots[|slots| - 1]))
  }

  /** Ascending by time. */
  predicate SortedByTime(entries: seq<RainySlot>)
  {
    forall i, j :: 0 <= i < j < |entries| ==> entries[i].time <= entries[j].time
  }

  /** An entry no later than any entry of a sorted sequence can go in front of it. */
  lemma ConsSorted(head: RainySlot, tail: seq<RainySlot>)
    requires SortedByTime(tail)
    requires forall x :: x in tail ==> head.time <= x.time
    ensures SortedByTime([head] + tail)
  {
  }

  /** An element of a sequence holding `tail` plus `e` is `e` or an element of `tail`. */
  lemma MemberOfInsert(x: RainySlot, r: seq<RainySlot>, tail: seq<RainySlot>, e: RainySlot)
    requires multiset(r) == multiset(tail) + multiset{e}
    requires x in r
    ensures x == e || x in tail
  {
    assert x in multiset(r);
  }

  /** Inserts `e` before the first entry that is not earlier than it. */
  function InsertByTime(e: RainySlot, entries: seq<RainySlot>): (r: seq<RainySlot>)
    requires SortedByTime(entries)
    ensures SortedByTime(r)
    ensures multiset(r) == multiset(entries) + multiset{e}
  {
    if entries == [] || e.time <= entries[0].time then [e] + entries
    else
      var rest := InsertByTime(e, entries[1..]);
      assert entries == [entries[0]] + entries[1..];
      forall x | x in rest ensures entries[0].time <= x.time {
        MemberOfInsert(x, rest, entries[1..], e);
      }
      ConsSorted(entries[0], rest);
      [entries[0]] + rest
  }

  /**
   * `entries.sort((a, b) => a.time - b.time)`: a stable sort by time (an insertion sort that
   * places each entry ahead of the later-listed entries of the same time).
   */
  function SortByTime(entries: seq<RainySlot>): (r: seq<RainySlot>)
    ensures SortedByTime(r)
    ensures multiset(r) == multiset(entries)
  {
    if entries == [] then []
    else
      assert entries == [entries[0]] + entries[1..];
      InsertByTime(entries[0], SortByTime(entries[1..]))
  }

  /** No two entries share a time. */
  predicate DistinctTimes(entries: seq<RainySlot>)
  {
    forall i, j :: 0 <= i < j < |entries| ==> entries[i].time != entries[j].time
  }

  /** Two sorted arrangements of the same entries, with distinct times, start alike. */
  lemma SortedPermutationHead(a: seq<RainySlot>, b: seq<RainySlot>)
    requires SortedByTime(a) && SortedByTime(b) && DistinctTimes(a)
    requires multiset(a) == multiset(b) && a != [] && b != []
    ensures a[0] == b[0]
  {
    assert a[0] in multiset(b) && b[0] in multiset(a);
    var i :| 0 <= i < |a| && a[i] == b[0];
    var j :| 0 <= j < |b| && b[j] == a[0];
    assert a[0].time <= a[i].time == b[0].time <= b[j].time == a[0].time;
  }

  /** Two sorted arrangements of the same entries with distinct times are identical. */
  lemma {:induction false} SortedPermutationUnique(a: seq<RainySlot>, b: seq<RainySlot>)
    requires SortedByTime(a) && SortedByTime(b) && DistinctTimes(a)
    requires multiset(a) == multiset(b)
    ensures a == b
  {
    assert |a| == |multiset(a)| == |multiset(b)| == |b|;
    if a != [] {
      SortedPermutationHead(a, b);
      assert a == [a[0]] + a[1..] && b == [b[0]] + b[1..];
      assert multiset(a[1..]) == multiset(b[1..]) by {
        assert multiset(a) == multiset{a[0]} + multiset(a[1..]);
        assert multiset(b) == multiset{a[0]} + multiset(b[1..]);
        forall x ensures multiset(a[1..])[x] == multiset(b[1..])[x] {
          assert multiset(a)[x] == multiset(b)[x];
        }
      }
      SortedPermutationUnique(a[1..], b[1..]);
    }
  }

  /** With distinct times the sorted result does not depend on the input order. */
  lemma SortIgnoresInputOrder(a: seq<RainySlot>, b: seq<RainySlot>)
    requires multiset(a) == multiset(b) && DistinctTimes(a)
    ensures SortByTime(a) == SortByTime(b)
  {
    var sa, sb := SortByTime(a), SortByTime(b);
    SortKeepsDistinct(a);
    SortedPermutationUnique(sa, sb);
  }

  /** Inserting an entry of a new time keeps the times distinct. */
  lemma {:induction false} InsertKeepsDistinct(e: RainySlot, entries: seq<RainySlot>)
    requires SortedByTime(entries) && DistinctTimes(entries)
    requires forall x :: x in entries ==> x.time != e.time
    ensures DistinctTimes(InsertByTime(e, entries))
  {
    if !(entries == [] || e.time <= entries[0].time) {
      var rest := InsertByTime(e, entries[1..]);
      InsertKeepsDistinct(e, entries[1..]);
      forall x | x in rest ensures x.time != entries[0].time {
        assert x in multiset(rest);
        assert x == e || x in entries[1..];
      }
    }
  }

  /** Sorting keeps the times distinct. */
  lemma {:induction false} SortKeepsDistinct(entries: seq<RainySlot>)
    requires DistinctTimes(entries)
    ensures DistinctTimes(SortByTime(entries))
  {
    if entries != [] {
      var sorted := SortByTime(entries[1..]);
      SortKeepsDistinct(entries[1..]);
      forall x | x in sorted ensures x.time != entries[0].time {
        assert x in multiset(entries[1..]);
      }
      InsertKeepsDistinct(entries[0], sorted);
    }
  }

  /** One more slot at the end: the max fold takes one more step. */
  lemma SnocMax(init: seq<Sample>, last: Sample)
    ensures MaxPop(init + [last]) == Max(MaxPop(init), PopOf(last))
  {
    assert (init + [last])[..|init|] == init;
  }

  /** One more slot at the end: the rainy entries take one more step. */
  lemma SnocRainy(init: seq<Sample>, last: Sample)
    ensures RainyEntries(init + [last]) == RainyEntries(init) + (if Rainy(last) then [Entry(last)] else [])
  {
    assert (init + [last])[..|init|] == init;
  }

  /** The five slots of the scenario below. */
  function ScenarioSlots(t: int): seq<Sample>
  {
    [Sample(t, Some(0.1), Some(0.0), None), Sample(t + 10800, Some(0.4), Some(0.0), None),
     Sample(t + 2 * 10800, Some(0.0), Some(0.0), None), Sample(t + 3 * 10800, Some(0.35), Some(0.0), None),
     Sample(t + 4 * 10800, Some(0.2), Some(0.0), None)]
  }

  /**
   * Five tomorrow slots with probabilities 0.1, 0.4, 0.0, 0.35, 0.2 and no rain volume: the
   * highest probability is 0.4 ...
   */
  lemma ScenarioHighest(t: int)
    ensures MaxPop(ScenarioSlots(t)) == 0.4
  {
    var slots := ScenarioSlots(t);
    var p1, p2, p3, p4 := slots[..1], slots[..2], slots[..3], slots[..4];
    assert p1 == [] + [slots[0]] && p2 == p1 + [slots[1]] && p3 == p2 + [slots[2]];
    assert p4 == p3 + [slots[3]] && slots == p4 + [slots[4]];
    SnocMax([], slots[0]);
    SnocMax(p1, slots[1]);
    SnocMax(p2, slots[2]);
    SnocMax(p3, slots[3]);
    SnocMax(p4, slots[4]);
  }

  /** ... and exactly the second and fourth are rainy. */
  lemma ScenarioRainy(t: int)
    ensures RainyEntries(ScenarioSlots(t)) == [RainySlot(t + 10800, 0.4, 0.0), RainySlot(t + 3 * 10800, 0.35, 0.0)]
  {
    var slots := ScenarioSlots(t);
    var p1, p2, p3, p4 := slots[..1], slots[..2], slots[..3], slots[..4];
    assert p1 == [] + [slots[0]] && p2 == p1 + [slots[1]] && p3 == p2 + [slots[2]];
    assert p4 == p3 + [slots[3]] && slots == p4 + [slots[4]];
    assert Entry(slots[1]) == RainySlot(t + 10800, 0.4, 0.0) by {
      Round2Fixes(40);
    }
    assert Entry(slots[3]) == RainySlot(t + 3 * 10800, 0.35, 0.0) by {
      Round2Fixes(35);
    }
    assert !Rainy(slots[0]) && Rainy(slots[1]) && !Rainy(slots[2]) && Rainy(slots[3]) && !Rainy(slots[4]);
    SnocRainy([], slots[0]);
    SnocRainy(p1, slots[1]);
    SnocRainy(p2, slots[2]);
    SnocRainy(p3, slots[3]);
    SnocRainy(p4, slots[4]);
  }

  /** Sorting keeps exactly the same entries. */
  lemma SortKeepsEntries(entries: seq<RainySlot>)
    ensures forall e :: e in SortByTime(entries) <==> e in entries
  {
    var sorted := SortByTime(entries);
    forall e ensures e in sorted <==> e in entries {
      assert e in sorted <==> e in multiset(sorted);
      assert e in entries <==> e in multiset(entries);
    }
  }

  /**
   * The loop of checkRainTomorrow: it collects the entries of the rainy samples in input
   * order and raises `willRain` at the first one.
   */
  method CollectRainy(tomorrow: seq<Sample>) returns (willRain: bool, rainySlots: seq<RainySlot>)
    ensures rainySlots == RainyEntries(tomorrow)
    ensures willRain <==> rainySlots != []
  {
    willRain := false;
    rainySlots := [];
    for i := 0 to |tomorrow|
      invariant rainySlots == RainyEntries(tomorrow[..i])
      invariant willRain <==> rainySlots != []
    {
      var s := tomorrow[i];
      assert tomorrow[..i + 1][..i] == tomorrow[..i];
      var volume := Volume(s);
      if volume > 0.0 || PopOf(s) >= RainThreshold {
        willRain := true;
        rainySlots := rainySlots + [RainySlot(s.dt, Round2(PopOf(s)), volume)];
      }
    }
    assert tomorrow[..|tomorrow|] == tomorrow;
  }

  /**
   * The aggregation of checkRainTomorrow: the loop, the max fold and the sort. It rains iff
   * some slot is rainy; the highest probability is over all slots; the rainy entries come
   * sorted by time.
   */
  method Aggregate(tomorrow: seq<Sample>) returns (summary: RainSummary)
    ensures summary.willRain <==> exists s :: s in tomorrow && Rainy(s)
    ensures summary.willRain <==> summary.rainySlots != []
    ensures summary.highestProbability == Round2(MaxPop(tomorrow))
    ensures SortedByTime(summary.rainySlots)
    ensures multiset(summary.rainySlots) == multiset(RainyEntries(tomorrow))
    ensures forall e :: e in summary.rainySlots <==> exists s :: s in tomorrow && Rainy(s) && e == Entry(s)
  {
    var willRain, rainySlots := CollectRainy(tomorrow);
    var maxPop := MaxPop(tomorrow);
    RainyEntriesNonEmpty(tomorrow);
    RainyEntriesMembers(tomorrow);
    SortKeepsEntries(rainySlots);
    summary := RainSummary(willRain, Round2(maxPop), SortByTime(rainySlots));
  }
}
