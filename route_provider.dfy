/**
 * The route provider (`MockGoogleMapsAPI.computeRoutes`): two to four candidate routes by
 * distance tier, named round-robin from the Kent road catalogue, each with its own random
 * variation of up to 15 % around a baseline duration of two minutes per kilometre.
 */
module RouteProvider {
  import opened Wrappers
  import opened Text
  import opened Types

  /** The primary roads followed by the secondary roads of the Kent catalogue. */
  const RoadCatalogue: seq<string> := [
    "A21 (London Road)", "A25 (High Street)", "A224 (Dartford Road)",
    "A225 (London Road)", "A227 (Gravesend Road)", "A228 (Basted Mill)",
    "Via Seal Hollow Road", "Via Bradbourne Vale Road", "Via Tonbridge Road",
    "Via Mount Pleasant Road", "Via Pembury Road", "Via St Johns Hill"]

  /** Four routes beyond 20 km, three beyond 10 km, two otherwise. */
  function RouteCount(distance: real): (n: nat)
    ensures 2 <= n <= 4
    ensures n == 4 <==> distance > 20000.0
    ensures n == 3 <==> 10000.0 < distance <= 20000.0
    ensures n == 2 <==> distance <= 10000.0
  {
    if distance > 20000.0 then 4 else if distance > 10000.0 then 3 else 2
  }

  /** `selectRouteName`: the catalogue entry at i modulo its length, or "Route <i+1>" for an empty entry. */
  function SelectRouteName(i: nat): (name: string)
  {
    var n := RoadCatalogue[i % |RoadCatalogue|];
    if n != "" then n else "Route " + NatToString(i + 1)
  }

  /** Names are drawn round-robin: the fallback never applies, and index i and i + 12 share a name. */
  lemma RoundRobinNames(i: nat)
    ensures SelectRouteName(i) == RoadCatalogue[i % 12]
    ensures SelectRouteName(i) in RoadCatalogue
    ensures SelectRouteName(i + 12) == SelectRouteName(i)
  {
    assert (i + 12) % 12 == i % 12;
    assert RoadCatalogue[i % 12] != "";
  }

  /** The first routes of any trip carry distinct names. */
  lemma DistinctNamesWithinCatalogue(i: nat, j: nat)
    requires i < j < 12
    ensures SelectRouteName(i) != SelectRouteName(j)
  {
    RoundRobinNames(i);
    RoundRobinNames(j);
  }

  /** The traffic-free baseline: two minutes per kilometre, at least five minutes. */
  function BaseTime(distance: real): (t: real)
    ensures t >= 300.0 && t >= distance / 1000.0 * 120.0
  {
    if 300.0 >= distance / 1000.0 * 120.0 then 300.0 else distance / 1000.0 * 120.0
  }

  /** The ±15 % variation a draw in [0, 1) gives. */
  function Variation(draw: real): (v: real)
    requires 0.0 <= draw < 1.0
    ensures 0.85 <= v < 1.15
  {
    1.0 + (draw - 0.5) * 0.3
  }

  /** Route i for the given distance and variation draw, before traffic is applied. */
  function CandidateRoute(i: nat, distance: real, endpoints: string, draw: real): (r: Route)
    requires 0.0 <= draw < 1.0
    ensures r.id == "route_" + NatToString(i + 1)
    ensures r.name == SelectRouteName(i)
    ensures r.delay == 0 && r.delayPercentage == 0.0 && r.status == Clear && r.reason == None
    ensures r.currentDuration == r.staticDuration >= 255
    ensures r.polyline == "polyline_" + endpoints + "_variant_" + NatToString(i)
  {
    var v := Variation(draw);
    var base := BaseTime(distance);
    assert base * v >= 255.0 by {
      assert base * v - 300.0 * 0.85 == (base - 300.0) * v + 300.0 * (v - 0.85);
      assert (base - 300.0) * v >= 0.0;
    }
    var duration := Round(base * v);
    Route("route_" + NatToString(i + 1), SelectRouteName(i),
          "polyline_" + endpoints + "_variant_" + NatToString(i),
          Round(distance * v), duration, duration, 0, 0.0, Clear, None)
  }

  /**
   * `computeRoutes` given the origin-destination distance in metres (the haversine
   * computation is not modelled), the coordinate text of the two endpoints, and one
   * variation draw per route.
   */
  method ComputeRoutes(distance: real, endpoints: string, draws: seq<real>) returns (routes: seq<Route>)
    requires |draws| >= RouteCount(distance)
    requires forall i :: 0 <= i < |draws| ==> 0.0 <= draws[i] < 1.0
    ensures |routes| == RouteCount(distance)
    ensures forall i :: 0 <= i < |routes| ==> routes[i] == CandidateRoute(i, distance, endpoints, draws[i])
    ensures forall i :: 0 <= i < |routes| ==> routes[i].staticDuration > 0
  {
    var count := RouteCount(distance);
    routes := [];
    var i := 0;
    while i < count
      invariant 0 <= i <= count
      invariant |routes| == i
      invariant forall j :: 0 <= j < i ==> routes[j] == CandidateRoute(j, distance, endpoints, draws[j])
    {
      routes := routes + [CandidateRoute(i, distance, endpoints, draws[i])];
      i := i + 1;
    }
  }

  /** Route ids are distinct: route_1 to route_n. */
  lemma RouteIdsDistinct(i: nat, j: nat, distance: real, endpoints: string, di: real, dj: real)
    requires i != j && 0.0 <= di < 1.0 && 0.0 <= dj < 1.0
    ensures CandidateRoute(i, distance, endpoints, di).id != CandidateRoute(j, distance, endpoints, dj).id
  {
    PrefixedInjective("route_", i + 1, j + 1);
  }
}
