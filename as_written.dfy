/**
 * Two places where the code as written throws instead of doing what it evidently means, each
 * next to an input that shows it. The rest of the model uses the corrected definitions.
 */
module AsWritten {
  import opened Wrappers
  import opened LocalDay
  import opened Rain
  import opened WeatherService

  /** The JavaScript exceptions involved. */
  datatype JsError = TypeError(message: string) | ReferenceError(message: string)

  /**
   * getLocalDayStart as written: `date.getDate()` is a number and has no `getTime` method,
   * so every call throws.
   */
  function LocalDayStartAsWritten(timestamp: int, offset: int): (r: Result<int, JsError>)
    ensures r.Failure? && r.error.TypeError?
  {
    Failure(TypeError("date.getDate(...).getTime is not a function"))
  }

  /** isTomorrowSlot as written: the exception from the day start escapes. */
  function IsTomorrowSlotAsWritten(slot: int, offset: int, now: int): (r: Result<bool, JsError>)
    ensures r.Failure?
  {
    Failure(LocalDayStartAsWritten(now, offset).error)
  }

  /** The tomorrow filter as written: the first classified sample throws. */
  function TomorrowSlotsAsWritten(list: seq<Sample>, tz: int, now: int): (r: Result<seq<Sample>, JsError>)
    ensures r.Failure? <==> list != []
  {
    if list == [] then Success([])
    else Failure(IsTomorrowSlotAsWritten(list[0].dt, tz, now).error)
  }

  /** A forecast with one sample on tomorrow: the code throws, the corrected filter keeps it. */
  lemma TomorrowFilterThrows()
    ensures var s := Sample(86400, Some(0.5), None, None);
      && TomorrowSlotsAsWritten([s], 0, 0).Failure?
      && TomorrowSlots([s], 0, 0) == [s]
  {
    var s := Sample(86400, Some(0.5), None, None);
    assert IsTomorrowSlot(s.dt, 0, 0);
    assert TomorrowSlots([s], 0, 0) == [s] + TomorrowSlots([], 0, 0);
  }

  /**
   * The loop of checkRainTomorrow as written: `pop` is not bound anywhere, so the first
   * iteration throws (in the condition, or in the entry when the volume short-circuits it)
   * and only an empty tomorrow gets through.
   */
  function CollectRainyAsWritten(tomorrow: seq<Sample>): (r: Result<(bool, seq<RainySlot>), JsError>)
    ensures r.Failure? <==> tomorrow != []
    ensures r.Failure? ==> r.error.ReferenceError?
    ensures r.Success? ==> r.value == (false, [])
  {
    if tomorrow == [] then Success((false, []))
    else Failure(ReferenceError("pop is not defined"))
  }

  /** A tomorrow slot with probability 0.5 makes the code throw, but is rainy once corrected. */
  lemma UnboundPopThrows()
    ensures var s := Sample(86400, Some(0.5), None, None);
      && CollectRainyAsWritten([s]).Failure?
      && Rainy(s)
      && RainyEntries([s]) == [RainySlot(86400, 0.5, 0.0)]
  {
    var s := Sample(86400, Some(0.5), None, None);
    assert Round2(0.5) == 0.5 by {
      Round2Fixes(50);
    }
    assert [s][..0] == [];
  }
}
