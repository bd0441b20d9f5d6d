/** The per-tile sampler: one forecast response for a tile centre becomes
    one wind summary, or nothing. */
module WindSampler {
  import opened Wrappers
  import opened WindGrid

  /** The hourly series of a forecast response; a missing series is empty. */
  datatype Hourly = Hourly(speeds: seq<real>, directions: seq<real>)

  /** The reduced observation published for one tile. */
  datatype Summary = Summary(tile: Bounds, speed: real, direction: real)

  /** `response` is None when the request failed, the status was not a
      success or the body did not parse. `reduce` stands for the averaging of
      the two series (arithmetic mean of speeds, circular mean of directions). */
  function FetchWindPoint(lat: int, lon: int, response: Option<Hourly>,
                          reduce: Hourly -> (real, real)): (r: Option<Summary>)
    ensures r.Some? <==> response.Some? && |response.value.speeds| > 0 && |response.value.directions| > 0
    ensures r.Some? ==> r.value.tile == MakeTileBounds(lat, lon)
    ensures r.Some? ==> (r.value.speed, r.value.direction) == reduce(response.value)
  {
    match response
    case None => None
    case Some(h) =>
      if |h.speeds| == 0 || |h.directions| == 0 then None
      else
        var (speed, direction) := reduce(h);
        Some(Summary(MakeTileBounds(lat, lon), speed, direction))
  }
}
