/** The post-processing of `Route._get_routing`: of the routes the routing
    service returns, only the first is used; its distance is rounded to whole
    metres and its duration turned into whole minutes. The HTTP request and the
    JSON decoding are not modelled: the decoded list of routes is the input. */
module Routing {
  import opened Results

  /** A `[longitude, latitude]` pair of the route geometry, in degrees. */
  datatype Coordinate = Coordinate(lon: real, lat: real)

  /** One element of `response['routes']`: geometry, metres and seconds. */
  datatype RawRoute = RawRoute(coordinates: seq<Coordinate>, distance: real, duration: real)

  /** What `_get_routing` returns. */
  datatype RouteResult = RouteResult(coordinates: seq<Coordinate>, distance: int, duration: int)

  /** Seconds to whole minutes by Python's floor division by 60, which rounds
      toward negative infinity also for negative operands. */
  function Minutes(seconds: real): (m: int)
    ensures m as real * 60.0 <= seconds < (m + 1) as real * 60.0
  {
    (seconds / 60.0).Floor
  }

  /** Any whole number of minutes that brackets the duration is the result, so
      the contract of `Minutes` determines it. */
  lemma MinutesUnique(seconds: real, n: int)
    requires n as real * 60.0 <= seconds < (n + 1) as real * 60.0
    ensures Minutes(seconds) == n
  {
  }

  lemma MinutesNonNegative(seconds: real)
    requires seconds >= 0.0
    ensures Minutes(seconds) >= 0
  {
  }

  /** An example route duration: 125.4 s is 2 minutes. */
  lemma MinutesOfExample()
    ensures Minutes(125.4) == 2
  {
    MinutesUnique(125.4, 2);
  }

  /** Python's rounding of the distance to zero decimals: the nearest integer,
      ties to the even one. */
  function RoundHalfEven(x: real): (n: int)
    ensures x - 0.5 <= n as real <= x + 0.5
    ensures (n as real == x - 0.5 || n as real == x + 0.5) ==> n % 2 == 0
  {
    var f := x.Floor;
    var d := x - f as real;
    if d < 0.5 then f
    else if d > 0.5 then f + 1
    else if f % 2 == 0 then f
    else f + 1
  }

  /** The contract of `RoundHalfEven` determines its result. */
  lemma RoundHalfEvenUnique(x: real, n: int)
    requires x - 0.5 <= n as real <= x + 0.5
    requires (n as real == x - 0.5 || n as real == x + 0.5) ==> n % 2 == 0
    ensures RoundHalfEven(x) == n
  {
  }

  /** Only the first route alternative is used; with no routes at all
      taking the first of them raises, which is the error result here. */
  function GetRouting(routes: seq<RawRoute>): (r: Result<RouteResult>)
    ensures r.Err? <==> |routes| == 0
    ensures r.Err? ==> r.error == NoRoute
    ensures r.Ok? ==>
      && r.value.coordinates == routes[0].coordinates
      && r.value.distance == RoundHalfEven(routes[0].distance)
      && r.value.duration == Minutes(routes[0].duration)
      && r.value.distance as real - 0.5 <= routes[0].distance <= r.value.distance as real + 0.5
      && r.value.duration as real * 60.0 <= routes[0].duration < (r.value.duration + 1) as real * 60.0
  {
    if |routes| == 0 then Err(NoRoute)
    else
      var route := routes[0];
      Ok(RouteResult(route.coordinates, RoundHalfEven(route.distance), Minutes(route.duration)))
  }

  /** An example route: 950 m and 125.4 s give 950 m and 2 min. */
  lemma ExampleRoute(coordinates: seq<Coordinate>, rest: seq<RawRoute>)
    ensures GetRouting([RawRoute(coordinates, 950.0, 125.4)] + rest)
         == Ok(RouteResult(coordinates, 950, 2))
  {
    MinutesOfExample();
    RoundHalfEvenUnique(950.0, 950);
  }
}
