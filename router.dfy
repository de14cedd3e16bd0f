/**
 * The route graph of transport-catalogue/transport_router.cpp.
 *
 * Every stop of the catalogue is a vertex. For every bus, every ride from a
 * stop to a later stop of the same traversal is an edge whose weight is the
 * wait at the first stop plus the travel time of the stretch. The forward
 * traversal is always added, the reverse one only when the bus is not a
 * roundtrip. A found route becomes an itinerary alternating Waiting and Trip
 * items.
 *
 * The router reads the catalogue through accessors whose implementation is
 * not part of this model; it sees a `Network`: the stops in catalogue order
 * (a pointer to a stop is its index there), the buses with their stops as
 * indices, the road distances the catalogue knows and the great-circle
 * distance as an uninterpreted function. graph::DirectedWeightedGraph is an
 * edge list, and graph::Router, the shortest-path search, is a function
 * parameter of which only its contract is known.
 */
module Router {
  import opened Wrappers
  import opened RouterWeight
  import opened Sequences

  /** domain::dto::RoutingSettings: bus speed in km/h and the wait at a stop in minutes. */
  datatype RoutingSettings = RoutingSettings(velocity: real, waitTime: int)

  datatype BusRoute = BusRoute(name: string, stops: seq<nat>, isRoundtrip: bool)

  datatype Network = Network(
    stops: seq<string>,
    buses: seq<BusRoute>,
    roadDistances: map<(nat, nat), int>,
    geoDistance: (nat, nat) -> real)

  datatype Edge = Edge(from: nat, to: nat, weight: GraphData)

  /** The answer of graph::Router::BuildRoute: the total weight and the edge ids of the path. */
  datatype RouteInfo = RouteInfo(weight: GraphData, edges: seq<nat>)

  datatype RouteItem = Waiting(stopName: string, waitTime: int) | Trip(bus: string, tripTime: real, spanCount: int)

  datatype RouteResponse = RouteResponse(items: seq<RouteItem>, totalTime: real)

  /** Every stop a bus refers to is a stop of the catalogue. */
  predicate WellFormed(net: Network) {
    forall b, i :: 0 <= b < |net.buses| && 0 <= i < |net.buses[b].stops| ==> net.buses[b].stops[i] < |net.stops|
  }

  /** The conversion of a double to int (static_cast, or assignment into an int): truncation toward zero. */
  function TruncateToInt(x: real): (r: int)
    ensures 0.0 <= x ==> 0 <= r && r as real <= x < r as real + 1.0
    ensures x < 0.0 ==> r <= 0 && r as real - 1.0 < x <= r as real
  {
    if x >= 0.0 then x.Floor else -((-x).Floor)
  }

  /** GetDistance: the road distance when the catalogue has one, else the geographic one, as an int. */
  function GetDistance(net: Network, from: nat, to: nat): (r: int)
    ensures (from, to) in net.roadDistances ==> r == net.roadDistances[(from, to)]
    ensures (from, to) !in net.roadDistances ==> r == TruncateToInt(net.geoDistance(from, to))
  {
    if (from, to) in net.roadDistances then net.roadDistances[(from, to)]
    else TruncateToInt(net.geoDistance(from, to))
  }

  /** CalculateTime: minutes to cover `distance` metres at `velocity` km/h. */
  function CalculateTime(settings: RoutingSettings, distance: real): (r: real)
    requires settings.velocity != 0.0
    ensures r * settings.velocity * 1000.0 == distance * 60.0
  {
    distance / (settings.velocity * FactorMPerMinute)
  }

  function SegmentTime(net: Network, settings: RoutingSettings, from: nat, to: nat): real
    requires settings.velocity != 0.0
  {
    CalculateTime(settings, GetDistance(net, from, to) as real)
  }

  /** Entry k of the travel-time vector of a traversal: minutes from its first stop to its stop k. */
  function TimeAt(net: Network, settings: RoutingSettings, stops: seq<nat>, k: nat): real
    requires settings.velocity != 0.0
    requires k < |stops|
    decreases k
  {
    if k == 0 then 0.0
    else TimeAt(net, settings, stops, k - 1) + SegmentTime(net, settings, stops[k - 1], stops[k])
  }

  /** One edge per pair i < j: the ride from stop i to stop j of this traversal with `bus`. */
  function EdgeFor(net: Network, settings: RoutingSettings, bus: string, stops: seq<nat>, i: nat, j: nat): Edge
    requires settings.velocity != 0.0
    requires i < j < |stops| && stops[i] < |net.stops|
  {
    Edge(stops[i], stops[j],
         GraphData(TimeAt(net, settings, stops, j) - TimeAt(net, settings, stops, i),
                   settings.waitTime, j - i, Some(net.stops[stops[i]]), Some(bus)))
  }

  /** The edges starting at position i, in the order of j. */
  function Row(net: Network, settings: RoutingSettings, bus: string, stops: seq<nat>, i: nat): seq<Edge>
    requires settings.velocity != 0.0
    requires i < |stops| && forall k :: 0 <= k < |stops| ==> stops[k] < |net.stops|
  {
    seq(|stops| - 1 - i, k requires 0 <= k < |stops| - 1 - i => EdgeFor(net, settings, bus, stops, i, i + 1 + k))
  }

  /** The rows of positions 0..n-1, in the order of i. */
  function Rows(net: Network, settings: RoutingSettings, bus: string, stops: seq<nat>, n: nat): seq<Edge>
    requires settings.velocity != 0.0
    requires n <= |stops| && forall k :: 0 <= k < |stops| ==> stops[k] < |net.stops|
    decreases n
  {
    if n == 0 then [] else Rows(net, settings, bus, stops, n - 1) + Row(net, settings, bus, stops, n - 1)
  }

  function RideEdges(net: Network, settings: RoutingSettings, bus: string, stops: seq<nat>): seq<Edge>
    requires settings.velocity != 0.0
    requires forall k :: 0 <= k < |stops| ==> stops[k] < |net.stops|
  {
    Rows(net, settings, bus, stops, |stops|)
  }

  /** The edges one bus contributes: its forward traversal, then the reverse one unless it is a roundtrip. */
  function BusEdges(net: Network, settings: RoutingSettings, bus: BusRoute): seq<Edge>
    requires settings.velocity != 0.0
    requires forall k :: 0 <= k < |bus.stops| ==> bus.stops[k] < |net.stops|
  {
    RideEdges(net, settings, bus.name, bus.stops)
    + if bus.isRoundtrip then [] else RideEdges(net, settings, bus.name, Reverse(bus.stops))
  }

  /** The edges of the first n buses, in catalogue order. */
  function BusesEdges(net: Network, settings: RoutingSettings, n: nat): seq<Edge>
    requires settings.velocity != 0.0 && WellFormed(net) && n <= |net.buses|
    decreases n
  {
    if n == 0 then []
    else
      var bus := net.buses[n - 1];
      assert forall k :: 0 <= k < |bus.stops| ==> bus.stops[k] < |net.stops|;
      BusesEdges(net, settings, n - 1) + BusEdges(net, settings, bus)
  }

  /** The edge list GraphInitialization builds. */
  function AllEdges(net: Network, settings: RoutingSettings): seq<Edge>
    requires settings.velocity != 0.0 && WellFormed(net)
  {
    BusesEdges(net, settings, |net.buses|)
  }

  // ---------------------------------------------------------------------
  // Paths and the contract of graph::Router

  ghost predicate IsPath(edges: seq<Edge>, from: nat, to: nat, p: seq<nat>) {
    && (forall k :: 0 <= k < |p| ==> p[k] < |edges|)
    && (if p == [] then from == to
        else
          && edges[p[0]].from == from
          && edges[p[|p| - 1]].to == to
          && forall k :: 0 <= k < |p| - 1 ==> edges[p[k]].to == edges[p[k + 1]].from)
  }

  /** The weight of a path: the sum of its edge weights. */
  function PathWeight(edges: seq<Edge>, p: seq<nat>): GraphData
    requires forall k :: 0 <= k < |p| ==> p[k] < |edges|
    decreases |p|
  {
    if p == [] then Zero else Add(PathWeight(edges, p[..|p| - 1]), edges[p[|p| - 1]].weight)
  }

  ghost predicate Reachable(edges: seq<Edge>, from: nat, to: nat) {
    exists p :: IsPath(edges, from, to, p)
  }

  /** What BuildRoute promises: a path of least total weight, or nothing when there is no path. */
  ghost predicate IsShortest(edges: seq<Edge>, from: nat, to: nat, answer: Option<RouteInfo>) {
    match answer
    case None => !Reachable(edges, from, to)
    case Some(info) =>
      && IsPath(edges, from, to, info.edges)
      && info.weight == PathWeight(edges, info.edges)
      && forall p :: IsPath(edges, from, to, p) ==> !Less(PathWeight(edges, p), info.weight)
  }

  ghost predicate IsShortestPathSearch(edges: seq<Edge>, search: (nat, nat) -> Option<RouteInfo>) {
    forall from, to :: IsShortest(edges, from, to, search(from, to))
  }

  // ---------------------------------------------------------------------
  // The itinerary

  /** Two items per edge of the path, in path order: the wait at its first stop, then the ride. */
  function ItemsOf(edges: seq<Edge>, p: seq<nat>): seq<RouteItem>
    requires forall k :: 0 <= k < |p| ==> p[k] < |edges|
    requires forall k :: 0 <= k < |edges| ==> edges[k].weight.startStop.Some? && edges[k].weight.bus.Some?
    decreases |p|
  {
    if p == [] then []
    else
      var w := edges[p[|p| - 1]].weight;
      ItemsOf(edges, p[..|p| - 1]) + [Waiting(w.startStop.value, w.waitTime), Trip(w.bus.value, w.spansTime, w.spanCount)]
  }

  /** The minutes of an itinerary: the sum of the times of its items. */
  function ItemsTime(items: seq<RouteItem>): real
    decreases |items|
  {
    if items == [] then 0.0
    else
      ItemsTime(items[..|items| - 1])
      + match items[|items| - 1]
        case Waiting(_, t) => t as real
        case Trip(_, t, _) => t
  }

  // ---------------------------------------------------------------------
  // Properties

  /** The travel-time vector starts at 0 and never decreases when distances are non-negative and the speed positive. */
  lemma {:induction false} TimesNonDecreasing(net: Network, settings: RoutingSettings, stops: seq<nat>, i: nat, j: nat)
    requires settings.velocity > 0.0
    requires forall a, b :: (a, b) in net.roadDistances ==> net.roadDistances[(a, b)] >= 0
    requires forall a, b :: net.geoDistance(a, b) >= 0.0
    requires i <= j < |stops|
    ensures TimeAt(net, settings, stops, 0) == 0.0
    ensures TimeAt(net, settings, stops, i) <= TimeAt(net, settings, stops, j)
    decreases j
  {
    if i < j {
      TimesNonDecreasing(net, settings, stops, i, j - 1);
      SegmentTimeNonNegative(net, settings, stops[j - 1], stops[j]);
    }
  }

  /** A single segment never takes negative time under the same conditions. */
  lemma SegmentTimeNonNegative(net: Network, settings: RoutingSettings, from: nat, to: nat)
    requires settings.velocity > 0.0
    requires forall a, b :: (a, b) in net.roadDistances ==> net.roadDistances[(a, b)] >= 0
    requires forall a, b :: net.geoDistance(a, b) >= 0.0
    ensures SegmentTime(net, settings, from, to) >= 0.0
  {
    var d := GetDistance(net, from, to);
    assert d >= 0;
    var t := SegmentTime(net, settings, from, to);
    var v := settings.velocity * 1000.0;
    assert t * v == d as real * 60.0;
  }

  /** The spans time of ride i..j is the travel time of the stretch stops[i..j] taken on its own. */
  lemma {:induction false} TimesShift(net: Network, settings: RoutingSettings, stops: seq<nat>, i: nat, j: nat)
    requires settings.velocity != 0.0
    requires i <= j < |stops|
    ensures TimeAt(net, settings, stops, j) - TimeAt(net, settings, stops, i)
            == TimeAt(net, settings, stops[i..j + 1], j - i)
    decreases j
  {
    if i < j {
      TimesShift(net, settings, stops, i, j - 1);
      var s := stops[i..j + 1];
      assert s[j - i - 1] == stops[j - 1] && s[j - i] == stops[j];
      assert stops[i..j] == s[..j - i];
      TimesPrefix(net, settings, s, j - i - 1);
    }
  }

  /** A travel-time entry only depends on the stops up to it. */
  lemma {:induction false} TimesPrefix(net: Network, settings: RoutingSettings, s: seq<nat>, k: nat)
    requires settings.velocity != 0.0
    requires k < |s|
    ensures TimeAt(net, settings, s[..k + 1], k) == TimeAt(net, settings, s, k)
    decreases k
  {
    if k > 0 {
      TimesPrefix(net, settings, s, k - 1);
      assert s[..k + 1][..k] == s[..k];
      TimesPrefixExtend(net, settings, s[..k + 1], k - 1);
    }
  }

  lemma {:induction false} TimesPrefixExtend(net: Network, settings: RoutingSettings, s: seq<nat>, k: nat)
    requires settings.velocity != 0.0
    requires k + 1 < |s|
    ensures TimeAt(net, settings, s[..k + 1], k) == TimeAt(net, settings, s, k)
    decreases k
  {
    if k > 0 {
      TimesPrefixExtend(net, settings, s, k - 1);
      TimesPrefixExtend(net, settings, s[..k + 1], k - 1);
      assert s[..k + 1][..k] == s[..k];
    }
  }

  /** A traversal of m stops gives exactly m(m-1)/2 edges. */
  lemma {:induction false} RowsCount(net: Network, settings: RoutingSettings, bus: string, stops: seq<nat>, n: nat)
    requires settings.velocity != 0.0
    requires n <= |stops| && forall k :: 0 <= k < |stops| ==> stops[k] < |net.stops|
    ensures 2 * |Rows(net, settings, bus, stops, n)| == n * (2 * |stops| - n - 1)
    decreases n
  {
    if n > 0 {
      RowsCount(net, settings, bus, stops, n - 1);
    }
  }

  lemma RideEdgesCount(net: Network, settings: RoutingSettings, bus: string, stops: seq<nat>)
    requires settings.velocity != 0.0
    requires forall k :: 0 <= k < |stops| ==> stops[k] < |net.stops|
    ensures 2 * |RideEdges(net, settings, bus, stops)| == |stops| * (|stops| - 1)
  {
    RowsCount(net, settings, bus, stops, |stops|);
  }

  /** The edges of a traversal are exactly the rides from position i to a later position j. */
  lemma {:induction false} RowsArePairs(net: Network, settings: RoutingSettings, bus: string, stops: seq<nat>, n: nat, e: Edge)
    requires settings.velocity != 0.0
    requires n <= |stops| && forall k :: 0 <= k < |stops| ==> stops[k] < |net.stops|
    ensures e in Rows(net, settings, bus, stops, n) <==>
      exists i, j :: 0 <= i < n && i < j < |stops| && e == EdgeFor(net, settings, bus, stops, i, j)
    decreases n
  {
    if n > 0 {
      RowsArePairs(net, settings, bus, stops, n - 1, e);
      RowMembers(net, settings, bus, stops, n - 1, e);
      if e in Row(net, settings, bus, stops, n - 1) {
        var j :| n - 1 < j < |stops| && e == EdgeFor(net, settings, bus, stops, n - 1, j);
      }
      if exists i, j :: 0 <= i < n && i < j < |stops| && e == EdgeFor(net, settings, bus, stops, i, j) {
        var i, j :| 0 <= i < n && i < j < |stops| && e == EdgeFor(net, settings, bus, stops, i, j);
      }
    }
  }

  /** Row i holds exactly the rides from position i to each later position. */
  lemma RowMembers(net: Network, settings: RoutingSettings, bus: string, stops: seq<nat>, i: nat, e: Edge)
    requires settings.velocity != 0.0
    requires i < |stops| && forall k :: 0 <= k < |stops| ==> stops[k] < |net.stops|
    ensures e in Row(net, settings, bus, stops, i) <==>
      exists j :: i < j < |stops| && e == EdgeFor(net, settings, bus, stops, i, j)
  {
    var row := Row(net, settings, bus, stops, i);
    if e in row {
      var k :| 0 <= k < |row| && row[k] == e;
      assert e == EdgeFor(net, settings, bus, stops, i, i + 1 + k);
    }
    if exists j :: i < j < |stops| && e == EdgeFor(net, settings, bus, stops, i, j) {
      var j :| i < j < |stops| && e == EdgeFor(net, settings, bus, stops, i, j);
      assert row[j - i - 1] == e;
    }
  }

  /** Every edge of one traversal joins catalogue stops and carries a start stop and a bus. */
  lemma RideEdgesWellFormed(net: Network, settings: RoutingSettings, bus: string, stops: seq<nat>)
    requires settings.velocity != 0.0
    requires forall k :: 0 <= k < |stops| ==> stops[k] < |net.stops|
    ensures forall e :: e in RideEdges(net, settings, bus, stops) ==>
      e.from < |net.stops| && e.to < |net.stops| && e.weight.startStop.Some? && e.weight.bus.Some?
  {
    forall e | e in RideEdges(net, settings, bus, stops)
      ensures e.from < |net.stops| && e.to < |net.stops| && e.weight.startStop.Some? && e.weight.bus.Some?
    {
      RowsArePairs(net, settings, bus, stops, |stops|, e);
    }
  }

  /** ... and so does every edge of one bus, both ways. */
  lemma BusEdgesWellFormed(net: Network, settings: RoutingSettings, bus: BusRoute)
    requires settings.velocity != 0.0
    requires forall k :: 0 <= k < |bus.stops| ==> bus.stops[k] < |net.stops|
    ensures forall e :: e in BusEdges(net, settings, bus) ==>
      e.from < |net.stops| && e.to < |net.stops| && e.weight.startStop.Some? && e.weight.bus.Some?
  {
    RideEdgesWellFormed(net, settings, bus.name, bus.stops);
    if !bus.isRoundtrip {
      var back := Reverse(bus.stops);
      assert forall k :: 0 <= k < |back| ==> back[k] == bus.stops[|bus.stops| - 1 - k];
      RideEdgesWellFormed(net, settings, bus.name, back);
    }
  }

  /** Every edge the graph holds joins catalogue stops and carries a start stop and a bus. */
  lemma {:induction false} BusesEdgesWellFormed(net: Network, settings: RoutingSettings, n: nat)
    requires settings.velocity != 0.0 && WellFormed(net) && n <= |net.buses|
    ensures forall e :: e in BusesEdges(net, settings, n) ==>
      e.from < |net.stops| && e.to < |net.stops| && e.weight.startStop.Some? && e.weight.bus.Some?
    decreases n
  {
    if n > 0 {
      BusesEdgesWellFormed(net, settings, n - 1);
      var bus := net.buses[n - 1];
      assert forall k :: 0 <= k < |bus.stops| ==> bus.stops[k] < |net.stops|;
      BusEdgesWellFormed(net, settings, bus);
    }
  }

  /** The reverse traversal of a bus is in the graph exactly when the bus is not a roundtrip. */
  lemma BusEdgesShape(net: Network, settings: RoutingSettings, bus: BusRoute)
    requires settings.velocity != 0.0
    requires forall k :: 0 <= k < |bus.stops| ==> bus.stops[k] < |net.stops|
    ensures var fwd := RideEdges(net, settings, bus.name, bus.stops);
      && fwd <= BusEdges(net, settings, bus)
      && (bus.isRoundtrip ==> BusEdges(net, settings, bus) == fwd)
      && (!bus.isRoundtrip ==> 2 * |BusEdges(net, settings, bus)| == 2 * |fwd| + |bus.stops| * (|bus.stops| - 1))
  {
    if !bus.isRoundtrip {
      RideEdgesCount(net, settings, bus.name, Reverse(bus.stops));
    }
  }

  /** The itinerary has two items per edge: the wait at the start stop, then the ride with its bus. */
  lemma {:induction false} ItemsShape(edges: seq<Edge>, p: seq<nat>, k: nat)
    requires forall i :: 0 <= i < |p| ==> p[i] < |edges|
    requires forall i :: 0 <= i < |edges| ==> edges[i].weight.startStop.Some? && edges[i].weight.bus.Some?
    requires k < |p|
    ensures |ItemsOf(edges, p)| == 2 * |p|
    ensures var w := edges[p[k]].weight;
      && ItemsOf(edges, p)[2 * k] == Waiting(w.startStop.value, w.waitTime)
      && ItemsOf(edges, p)[2 * k + 1] == Trip(w.bus.value, w.spansTime, w.spanCount)
    decreases |p|
  {
    if k < |p| - 1 {
      ItemsShape(edges, p[..|p| - 1], k);
    } else if |p| > 1 {
      ItemsShape(edges, p[..|p| - 1], 0);
    }
  }

  /** The items of an itinerary add up to its total time. */
  lemma {:induction false} ItemsAddUp(edges: seq<Edge>, p: seq<nat>)
    requires forall i :: 0 <= i < |p| ==> p[i] < |edges|
    requires forall i :: 0 <= i < |edges| ==> edges[i].weight.startStop.Some? && edges[i].weight.bus.Some?
    ensures ItemsTime(ItemsOf(edges, p)) == Total(PathWeight(edges, p))
    decreases |p|
  {
    if p != [] {
      var init := p[..|p| - 1];
      ItemsAddUp(edges, init);
      var items := ItemsOf(edges, p);
      var w := edges[p[|p| - 1]].weight;
      assert items[..|items| - 1] == ItemsOf(edges, init) + [Waiting(w.startStop.value, w.waitTime)];
      assert items[..|items| - 1][..|items| - 2] == ItemsOf(edges, init);
    }
  }

  // ---------------------------------------------------------------------
  // The operations

  /** VerticesIdInitialization: `result[&stop] = result.size()`, the size being read before the insertion. */
  method VerticesIdInitialization(allStops: seq<string>) returns (ids: map<nat, nat>)
    ensures forall k: nat :: k in ids <==> k < |allStops|
    ensures forall k :: k in ids ==> ids[k] == k
  {
    ids := map[];
    var i := 0;
    while i < |allStops|
      invariant 0 <= i <= |allStops|
      invariant forall k: nat :: k in ids <==> k < i
      invariant forall k :: k in ids ==> ids[k] == k
      invariant |ids| == i
    {
      var id := |ids|;
      ids := ids[i := id];
      i := i + 1;
    }
  }

  /** CreateTravelTimesVector: prefix sums of the segment times, entry 0 being 0. */
  method CreateTravelTimesVector(net: Network, settings: RoutingSettings, stops: seq<nat>) returns (times: seq<real>)
    requires settings.velocity != 0.0
    ensures |times| == |stops|
    ensures forall k :: 0 <= k < |stops| ==> times[k] == TimeAt(net, settings, stops, k)
  {
    var travelTime := new real[|stops|](_ => 0.0);
    var i := 1;
    while i < |stops|
      invariant 1 <= i
      invariant |stops| > 0 ==> i <= |stops|
      invariant forall k :: 0 <= k < i && k < |stops| ==> travelTime[k] == TimeAt(net, settings, stops, k)
    {
      var distance := GetDistance(net, stops[i - 1], stops[i]) as real;
      var time := CalculateTime(settings, distance);
      travelTime[i] := travelTime[i - 1] + time;
      i := i + 1;
    }
    times := travelTime[..];
  }

  class Graph {
    var vertexCount: nat
    var edges: seq<Edge>

    constructor (vertexCount: nat)
      ensures this.vertexCount == vertexCount && edges == []
    {
      this.vertexCount := vertexCount;
      edges := [];
    }

    method AddEdge(e: Edge) returns (id: nat)
      modifies this
      ensures edges == old(edges) + [e] && id == |old(edges)|
      ensures vertexCount == old(vertexCount)
    {
      id := |edges|;
      edges := edges + [e];
    }
  }

  /** AddEdgesInGraph: for every i and every later j, the edge i -> j, in the order of i, then j. */
  method AddEdgesInGraph(net: Network, settings: RoutingSettings, verticesId: map<nat, nat>,
                         stops: seq<nat>, graph: Graph, bus: string)
    requires settings.velocity != 0.0
    requires forall k :: 0 <= k < |stops| ==> stops[k] < |net.stops|
    requires forall k: nat :: k < |net.stops| ==> k in verticesId && verticesId[k] == k
    modifies graph
    ensures graph.edges == old(graph.edges) + RideEdges(net, settings, bus, stops)
    ensures graph.vertexCount == old(graph.vertexCount)
  {
    var travelTimes := CreateTravelTimesVector(net, settings, stops);
    var i := 0;
    while i < |stops|
      invariant 0 <= i <= |stops|
      invariant graph.edges == old(graph.edges) + Rows(net, settings, bus, stops, i)
      invariant graph.vertexCount == old(graph.vertexCount)
    {
      var fromId := verticesId[stops[i]];
      var j := i + 1;
      while j < |stops|
        invariant i + 1 <= j <= |stops|
        invariant graph.edges == old(graph.edges) + Rows(net, settings, bus, stops, i)
                                 + Row(net, settings, bus, stops, i)[..j - i - 1]
        invariant graph.vertexCount == old(graph.vertexCount)
      {
        var toId := verticesId[stops[j]];
        var data := GraphData(travelTimes[j] - travelTimes[i], settings.waitTime, j - i,
                              Some(net.stops[stops[i]]), Some(bus));
        var row := Row(net, settings, bus, stops, i);
        assert row[j - i - 1] == EdgeFor(net, settings, bus, stops, i, j) == Edge(fromId, toId, data);
        assert row[..j - i] == row[..j - i - 1] + [row[j - i - 1]];
        var _ := graph.AddEdge(Edge(fromId, toId, data));
        j := j + 1;
      }
      assert Row(net, settings, bus, stops, i)[..|stops| - i - 1] == Row(net, settings, bus, stops, i);
      i := i + 1;
    }
  }

  /** GraphInitialization: one vertex per stop; each bus forward, and backward unless it is a roundtrip. */
  method GraphInitialization(net: Network, settings: RoutingSettings, verticesId: map<nat, nat>)
    returns (graph: Graph)
    requires settings.velocity != 0.0 && WellFormed(net)
    requires forall k: nat :: k < |net.stops| ==> k in verticesId && verticesId[k] == k
    ensures fresh(graph)
    ensures graph.vertexCount == |net.stops| && graph.edges == AllEdges(net, settings)
  {
    graph := new Graph(|net.stops|);
    var b := 0;
    while b < |net.buses|
      invariant 0 <= b <= |net.buses|
      invariant graph.vertexCount == |net.stops| && graph.edges == BusesEdges(net, settings, b)
    {
      var bus := net.buses[b];
      assert forall k :: 0 <= k < |bus.stops| ==> bus.stops[k] < |net.stops|;
      ghost var before := graph.edges;
      AddEdgesInGraph(net, settings, verticesId, bus.stops, graph, bus.name);
      if !bus.isRoundtrip {
        ghost var forward := RideEdges(net, settings, bus.name, bus.stops);
        AddEdgesInGraph(net, settings, verticesId, Reverse(bus.stops), graph, bus.name);
        AppendAssociative(before, forward, RideEdges(net, settings, bus.name, Reverse(bus.stops)));
      }
      b := b + 1;
    }
  }

  /** FindStop: the catalogue position of the stop with this name, if there is one. */
  function FindStop(stops: seq<string>, name: string): (r: Option<nat>)
    ensures r.None? <==> name !in stops
    ensures r.Some? ==> r.value < |stops| && stops[r.value] == name
    decreases |stops|
  {
    if stops == [] then None
    else if stops[|stops| - 1] == name then Some(|stops| - 1)
    else FindStop(stops[..|stops| - 1], name)
  }

  class TransportRouter {
    const net: Network
    const settings: RoutingSettings
    var verticesId: map<nat, nat>
    var graph: Graph

    ghost predicate Valid()
      reads this, graph
    {
      && settings.velocity != 0.0 && WellFormed(net)
      && (forall k: nat :: k in verticesId <==> k < |net.stops|)
      && (forall k :: k in verticesId ==> verticesId[k] == k)
      && graph.vertexCount == |net.stops|
      && graph.edges == AllEdges(net, settings)
      && (forall k :: 0 <= k < |graph.edges| ==>
            graph.edges[k].weight.startStop.Some? && graph.edges[k].weight.bus.Some?)
    }

    constructor (net: Network, settings: RoutingSettings)
      requires settings.velocity != 0.0 && WellFormed(net)
      ensures Valid() && fresh(graph)
      ensures this.net == net && this.settings == settings
    {
      this.net := net;
      this.settings := settings;
      var ids := VerticesIdInitialization(net.stops);
      verticesId := ids;
      var g := GraphInitialization(net, settings, ids);
      graph := g;
      BusesEdgesWellFormed(net, settings, |net.buses|);
      assert forall k :: 0 <= k < |g.edges| ==> g.edges[k] in g.edges;
    }

    /** BuildRouteResponse: Waiting then Trip for every edge of the route, and the route's total time. */
    method BuildRouteResponse(route: RouteInfo) returns (response: RouteResponse)
      requires Valid()
      requires forall k :: 0 <= k < |route.edges| ==> route.edges[k] < |graph.edges|
      ensures response.items == ItemsOf(graph.edges, route.edges)
      ensures response.totalTime == Total(route.weight)
    {
      var items: seq<RouteItem> := [];
      var i := 0;
      while i < |route.edges|
        invariant 0 <= i <= |route.edges|
        invariant items == ItemsOf(graph.edges, route.edges[..i])
      {
        var gd := graph.edges[route.edges[i]].weight;
        items := items + [Waiting(gd.startStop.value, gd.waitTime)];
        items := items + [Trip(gd.bus.value, gd.spansTime, gd.spanCount)];
        assert route.edges[..i + 1][..i] == route.edges[..i];
        i := i + 1;
      }
      assert route.edges[..|route.edges|] == route.edges;
      return RouteResponse(items, route.weight.spansTime + route.weight.waitTime as real);
    }

    /**
     * GetRoute: both names go through `vertices_id_.at`, which throws for a
     * stop without a vertex; then the search answers, and its route, if any,
     * becomes the itinerary.
     */
    method GetRoute(from: string, to: string, search: (nat, nat) -> Option<RouteInfo>)
      returns (r: Result<Option<RouteResponse>, Exception>)
      requires Valid() && IsShortestPathSearch(graph.edges, search)
      ensures r.Err? <==> from !in net.stops || to !in net.stops
      ensures r.Err? ==> r.error == OutOfRange
      ensures r == Ok(None) <==>
        from in net.stops && to in net.stops
        && !Reachable(graph.edges, FindStop(net.stops, from).value, FindStop(net.stops, to).value)
      ensures r.Ok? && r.value.Some? ==>
        var info := search(FindStop(net.stops, from).value, FindStop(net.stops, to).value).value;
        && r.value.value == RouteResponse(ItemsOf(graph.edges, info.edges), Total(info.weight))
        && ItemsTime(r.value.value.items) == r.value.value.totalTime
    {
      var fromStop := FindStop(net.stops, from);
      var toStop := FindStop(net.stops, to);
      if fromStop.None? || fromStop.value !in verticesId {
        return Err(OutOfRange);
      }
      var fromId := verticesId[fromStop.value];
      if toStop.None? || toStop.value !in verticesId {
        return Err(OutOfRange);
      }
      var toId := verticesId[toStop.value];
      var route := search(fromId, toId);
      assert IsShortest(graph.edges, fromId, toId, route);
      if route.None? {
        return Ok(None);
      }
      var response := BuildRouteResponse(route.value);
      ItemsAddUp(graph.edges, route.value.edges);
      assert Reachable(graph.edges, fromId, toId);
      return Ok(Some(response));
    }
  }
}
