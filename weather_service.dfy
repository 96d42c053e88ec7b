/**
 * The forecast query of src/services/weather.service.js: geocode the query, filter the forecast
 * to the location's tomorrow, aggregate, and label the resolved place. The geocoding and forecast
 * responses and the current instant are parameters.
 */
module WeatherService {
  import opened Wrappers
  import opened LocalDay
  import opened Rain

  /** The first geocoding match, as geocodeCity returns it. */
  datatype Location = Location(lat: real, lon: real, name: Option<string>, country: Option<string>, state: Option<string>)

  /** The body of the geocoding response: an array of matches, or anything else. */
  datatype GeocodeBody = Matches(candidates: seq<Location>) | NotAnArray

  /** The `city` object of the forecast response. */
  datatype City = City(timezone: Option<int>)

  /** The body of the forecast response. */
  datatype ForecastBody = ForecastBody(city: Option<City>, list: seq<Sample>)

  datatype ServiceError = LocationNotFound

  datatype LocationSummary = LocationSummary(query: string, resolved: string, lat: real, lon: real, timezoneOffsetSec: int)

  /** What checkRainTomorrow returns. */
  datatype Report = Report(location: LocationSummary, tomorrow: RainSummary)

  /** The first match, or "Location not found" when the body is not a non-empty array. */
  function GeocodeCity(body: GeocodeBody): (r: Result<Location, ServiceError>)
    ensures r.Failure? <==> body.NotAnArray? || body.candidates == []
    ensures r.Failure? ==> r.error == LocationNotFound
    ensures r.Success? ==> r.value == body.candidates[0]
  {
    if body.NotAnArray? || |body.candidates| == 0 then Failure(LocationNotFound)
    else Success(body.candidates[0])
  }

  /** `city?.timezone ?? 0`: the provider's offset, 0 when the city or its timezone is missing. */
  function TimezoneOffset(body: ForecastBody): (tz: int)
    ensures body.city.None? ==> tz == 0
    ensures body.city.Some? && body.city.value.timezone.None? ==> tz == 0
    ensures body.city.Some? && body.city.value.timezone.Some? ==> tz == body.city.value.timezone.value
  {
    match body.city
    case Some(city) => city.timezone.GetOr(0)
    case None => 0
  }

  /** `list.filter(item => isTomorrowSlot(item.dt, tz, now))`. */
  function TomorrowSlots(list: seq<Sample>, tz: int, now: int): (slots: seq<Sample>)
    ensures forall s :: s in slots ==> IsTomorrowSlot(s.dt, tz, now)
    ensures forall s :: multiset(slots)[s] == if IsTomorrowSlot(s.dt, tz, now) then multiset(list)[s] else 0
  {
    if list == [] then []
    else
      assert list == [list[0]] + list[1..];
      (if IsTomorrowSlot(list[0].dt, tz, now) then [list[0]] else []) + TomorrowSlots(list[1..], tz, now)
  }

  /** The filter keeps the input order: it distributes over concatenation. */
  lemma {:induction false} TomorrowSlotsAppend(a: seq<Sample>, b: seq<Sample>, tz: int, now: int)
    ensures TomorrowSlots(a + b, tz, now) == TomorrowSlots(a, tz, now) + TomorrowSlots(b, tz, now)
  {
    if a == [] {
      assert a + b == b;
    } else {
      var ab := a + b;
      assert ab[0] == a[0] && ab[1..] == a[1..] + b;
      TomorrowSlotsAppend(a[1..], b, tz, now);
    }
  }

  /** A label part JavaScript treats as true: present and not empty. */
  predicate Truthy(part: Option<string>)
  {
    part.Some? && part.value != ""
  }

  /** What `filter(Boolean)` keeps of one part. */
  function KeptPart(part: Option<string>): (kept: seq<string>)
    ensures forall p :: p in kept ==> p != ""
    ensures Truthy(part) ==> kept == [part.value]
    ensures !Truthy(part) ==> kept == []
  {
    if Truthy(part) then [part.value] else []
  }

  /** `[name, state, country].filter(Boolean)`. */
  function LabelParts(name: Option<string>, state: Option<string>, country: Option<string>): (parts: seq<string>)
    ensures forall p :: p in parts ==> p != ""
    ensures |parts| == (if Truthy(name) then 1 else 0) + (if Truthy(state) then 1 else 0)
                      + (if Truthy(country) then 1 else 0)
    ensures Truthy(name) ==> parts[0] == name.value
    ensures Truthy(state) ==> parts[if Truthy(name) then 1 else 0] == state.value
    ensures Truthy(country) ==> parts[|parts| - 1] == country.value
  {
    KeptPart(name) + KeptPart(state) + KeptPart(country)
  }

  /** The sum of the lengths of `parts`. */
  function TotalLength(parts: seq<string>): nat
  {
    if parts == [] then 0 else |parts[0]| + TotalLength(parts[1..])
  }

  /** `parts.join(' ')`: the parts in order, one space between neighbours. */
  function Join(parts: seq<string>): (s: string)
    ensures parts == [] ==> s == ""
    ensures parts != [] ==> |s| == TotalLength(parts) + |parts| - 1
    ensures parts != [] ==> s[..|parts[0]|] == parts[0]
  {
    if |parts| == 0 then ""
    else if |parts| == 1 then parts[0]
    else parts[0] + " " + Join(parts[1..])
  }

  /** The index of the first space of `s`. */
  function FirstSpace(s: string): (i: nat)
    requires ' ' in s
    ensures i < |s| && s[i] == ' ' && ' ' !in s[..i]
  {
    if s[0] == ' ' then 0
    else
      assert s == [s[0]] + s[1..];
      var i := FirstSpace(s[1..]);
      assert s[..i + 1] == [s[0]] + s[1..][..i];
      i + 1
  }

  /** `s.split(' ')`: the reference against which Join is checked. */
  function Split(s: string): (parts: seq<string>)
    ensures |parts| >= 1
    decreases |s|
  {
    if ' ' in s then
      var i := FirstSpace(s);
      [s[..i]] + Split(s[i + 1..])
    else [s]
  }

  /** Joining the pieces of a split restores the string. */
  lemma {:induction false} JoinSplit(s: string)
    ensures Join(Split(s)) == s
    decreases |s|
  {
    if ' ' in s {
      var i := FirstSpace(s);
      var rest := Split(s[i + 1..]);
      JoinSplit(s[i + 1..]);
      assert Split(s) == [s[..i]] + rest;
      assert Join(Split(s)) == s[..i] + " " + Join(rest) by {
        assert |Split(s)| >= 2 && Split(s)[0] == s[..i] && Split(s)[1..] == rest;
      }
      assert s == s[..i] + [s[i]] + s[i + 1..];
    }
  }

  /** The first space after a word without spaces is the one right after it. */
  lemma {:induction false} FirstSpaceAfterWord(word: string, rest: string)
    requires ' ' !in word
    ensures FirstSpace(word + " " + rest) == |word|
  {
    var s := word + " " + rest;
    if word != [] {
      assert s[0] == word[0] && s[1..] == word[1..] + " " + rest;
      FirstSpaceAfterWord(word[1..], rest);
    }
  }

  /** Splitting a join of words without spaces gives the words back. */
  lemma {:induction false} SplitJoin(parts: seq<string>)
    requires parts != []
    requires forall p :: p in parts ==> ' ' !in p
    ensures Split(Join(parts)) == parts
  {
    if |parts| > 1 {
      var head, tail := parts[0], Join(parts[1..]);
      var s := Join(parts);
      assert s == head + " " + tail;
      assert head in parts;
      FirstSpaceAfterWord(head, tail);
      assert s[|head|] == ' ';
      assert s[..|head|] == head && s[|head| + 1..] == tail;
      assert Split(s) == [head] + Split(tail);
      SplitJoin(parts[1..]);
      assert parts == [head] + parts[1..];
    }
  }

  /** Joins of one, two and three parts written out. */
  lemma JoinUpToThree(parts: seq<string>)
    ensures |parts| == 1 ==> Join(parts) == parts[0]
    ensures |parts| == 2 ==> Join(parts) == parts[0] + " " + parts[1]
    ensures |parts| == 3 ==> Join(parts) == parts[0] + " " + parts[1] + " " + parts[2]
  {
    if |parts| == 2 {
      assert Join(parts[1..]) == parts[1];
    } else if |parts| == 3 {
      assert parts[1..][1..] == parts[2..];
      assert Join(parts[1..]) == parts[1] + " " + parts[2];
    }
  }

  /** Joining non-empty parts gives the empty string only when there are none. */
  lemma JoinEmpty(parts: seq<string>)
    requires forall p :: p in parts ==> p != ""
    ensures Join(parts) == "" <==> parts == []
  {
    if |parts| > 1 {
      assert Join(parts) == parts[0] + (" " + Join(parts[1..]));
      assert parts[0] in parts;
    } else if |parts| == 1 {
      assert parts[0] in parts;
    }
  }

  /**
   * The resolved place label: name, state and country, absent or empty ones left out,
   * separated by single spaces.
   */
  function ResolvedLabel(name: Option<string>, state: Option<string>, country: Option<string>): (resolved: string)
    ensures resolved == "" <==> LabelParts(name, state, country) == []
    ensures var parts := LabelParts(name, state, country);
      |parts| == 1 ==> resolved == parts[0]
    ensures var parts := LabelParts(name, state, country);
      |parts| == 2 ==> resolved == parts[0] + " " + parts[1]
    ensures var parts := LabelParts(name, state, country);
      |parts| == 3 ==> resolved == parts[0] + " " + parts[1] + " " + parts[2]
    ensures LabelParts(name, state, country) != []
         && (forall p :: p in LabelParts(name, state, country) ==> ' ' !in p)
         ==> Split(resolved) == LabelParts(name, state, country)
  {
    var parts := LabelParts(name, state, country);
    JoinEmpty(parts);
    JoinUpToThree(parts);
    if parts != [] && (forall p :: p in parts ==> ' ' !in p) then SplitJoin(parts); Join(parts)
    else Join(parts)
  }

  /**
   * checkRainTomorrow over given responses and a given current instant: "Location not found"
   * when geocoding finds nothing, otherwise the location summary and the rain verdict for the
   * location's tomorrow.
   */
  method CheckRainTomorrow(q: string, geocode: GeocodeBody, forecast: ForecastBody, now: int)
    returns (r: Result<Report, ServiceError>)
    ensures r.Failure? <==> geocode.NotAnArray? || geocode.candidates == []
    ensures r.Failure? ==> r.error == LocationNotFound
    ensures r.Success? ==>
      var loc := geocode.candidates[0];
      var tz := TimezoneOffset(forecast);
      && r.value.location == LocationSummary(q, ResolvedLabel(loc.name, loc.state, loc.country), loc.lat, loc.lon, tz)
      && (r.value.tomorrow.willRain <==> exists s :: s in forecast.list && IsTomorrowSlot(s.dt, tz, now) && Rainy(s))
      && (r.value.tomorrow.willRain <==> r.value.tomorrow.rainySlots != [])
      && r.value.tomorrow.highestProbability == Round2(MaxPop(TomorrowSlots(forecast.list, tz, now)))
      && SortedByTime(r.value.tomorrow.rainySlots)
      && multiset(r.value.tomorrow.rainySlots) == multiset(RainyEntries(TomorrowSlots(forecast.list, tz, now)))
      && (forall e :: e in r.value.tomorrow.rainySlots
            <==> exists s :: s in forecast.list && IsTomorrowSlot(s.dt, tz, now) && Rainy(s) && e == Entry(s))
  {
    var located := GeocodeCity(geocode);
    if located.Failure? {
      return Failure(located.error);
    }
    var loc := located.value;
    var tz := TimezoneOffset(forecast);
    var tomorrowSlots := TomorrowSlots(forecast.list, tz, now);
    assert forall s :: s in tomorrowSlots <==> s in forecast.list && IsTomorrowSlot(s.dt, tz, now) by {
      forall s ensures s in tomorrowSlots <==> s in forecast.list && IsTomorrowSlot(s.dt, tz, now) {
        assert s in tomorrowSlots <==> multiset(tomorrowSlots)[s] > 0;
        assert s in forecast.list <==> multiset(forecast.list)[s] > 0;
      }
    }
    var tomorrow := Aggregate(tomorrowSlots);
    var location := LocationSummary(q, ResolvedLabel(loc.name, loc.state, loc.country), loc.lat, loc.lon, tz);
    r := Success(Report(location, tomorrow));
  }
}
