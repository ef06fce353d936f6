/**
 * The fifth transit guide (transport_guide_E): stops are kept in a vector
 * and found through a name-to-index table, and `InitRouter` turns the
 * registered buses into a weighted directed graph for a shortest-path
 * router. Each stop `s` with index `x` has two vertices: `2x`, arriving at
 * the stop, and `2x + 1`, having waited and boarded. A wait edge joins
 * them; a ride edge joins the boarding vertex of a stop to the arrival
 * vertex of every later stop of the same bus. The table `routeItems`
 * describes edge `k` in entry `k`, and `GetRoute` maps the router's edge
 * ids back through it.
 *
 * The router itself (`Graph::Router`, whose source is not part of this
 * model) is a function from a pair of vertices to an optional route of
 * edge ids and weight; the geodesic length `GetLength` is an
 * uninterpreted function.
 */
module TransitE {
  import opened Wrappers
  import opened Transit

  datatype RoutingSettings = RoutingSettings(busWaitTime: int, busVelocity: real)

  /** The guide's tables: the stops in order of addition and the name-to-index table. */
  datatype Network = Network(
    stops: seq<Stop>,
    index: map<string, nat>,
    busByName: map<string, Bus>,
    distances: map<(string, string), real>)

  /** Every indexed name points into the stop vector. */
  predicate Indexed(net: Network)
  {
    forall name :: name in net.index ==> net.index[name] < |net.stops|
  }

  /** `GetStop`: the stop each indexed name points to. */
  function Located(net: Network): (r: map<string, Stop>)
    requires Indexed(net)
    ensures r.Keys == net.index.Keys
  {
    map name | name in net.index :: net.stops[net.index[name]]
  }

  /**
   * `AddStop`: the new stop's index is the vector's size before the push,
   * and a name added again now points to the newest stop (the last write
   * wins), while every other name keeps its stop.
   */
  lemma AddStopLocated(net: Network, stop: Stop)
    requires Indexed(net)
    ensures Indexed(net.(stops := net.stops + [stop], index := net.index[stop.name := |net.stops|]))
    ensures Located(net.(stops := net.stops + [stop], index := net.index[stop.name := |net.stops|]))
      == Located(net)[stop.name := stop]
  {
    var after := net.(stops := net.stops + [stop], index := net.index[stop.name := |net.stops|]);
    assert Indexed(after);
    forall name | name in after.index
      ensures Located(after)[name] == Located(net)[stop.name := stop][name]
    {
      if name != stop.name {
        assert after.stops[net.index[name]] == net.stops[net.index[name]];
      }
    }
  }

  /** Every stop of every bus is indexed (`stopIndxByName.at` finds it). */
  predicate Served(net: Network)
  {
    Indexed(net) &&
    forall bus, k :: bus in net.busByName && 0 <= k < |net.busByName[bus].stops| ==> net.busByName[bus].stops[k] in net.index
  }

  /** `size_t` from a C++ `int`: a negative wait time wraps around. */
  const SizeModulus: int := 0x1_0000_0000_0000_0000

  function ToSize(x: int): (r: nat)
    ensures r < SizeModulus
    ensures 0 <= x < SizeModulus ==> r == x
    ensures -SizeModulus <= x < 0 ==> r == x + SizeModulus
  {
    x % SizeModulus
  }

  datatype Edge = Edge(src: nat, dst: nat, weight: real)

  datatype RouteItem =
    | Wait(stopName: string, waitTime: nat)
    | Ride(busName: string, spanCount: nat, rideTime: real)

  datatype Route = Route(totalTime: real, items: seq<RouteItem>)

  /** What the router answers: the route's total weight and its edge ids in order. */
  datatype RouterRoute = RouterRoute(weight: real, edgeIds: seq<nat>)

  /** The minutes a ride of one metre takes: `busVelocity * 1000 / 60` metres a minute. */
  function Speed(settings: RoutingSettings): real
  {
    settings.busVelocity * 1000.0 / 60.0
  }

  /** The time of a ride on `route` from its `i`-th stop to its `j`-th, leg by leg. */
  function RideTime(located: map<string, Stop>, distances: map<(string, string), real>,
                    geo: (Coords, Coords) -> real, speed: real, route: seq<string>, i: nat, j: nat): real
    requires i <= j < |route| && speed != 0.0
    requires forall k :: i <= k <= j ==> route[k] in located
    decreases j - i
  {
    if j == i then 0.0
    else RideTime(located, distances, geo, speed, route, i, j - 1) + RoadDistance(located, distances, geo, route[j - 1], route[j]) / speed
  }

  /** A ride's time is the road length between its two stops over the speed. */
  lemma {:induction false} RideTimeByRoad(located: map<string, Stop>, distances: map<(string, string), real>,
                                          geo: (Coords, Coords) -> real, speed: real, route: seq<string>, i: nat, j: nat)
    requires i <= j && speed != 0.0 && LegsKnown(located, route, j)
    requires forall k :: i <= k <= j ==> route[k] in located
    ensures LegsKnown(located, route, i)
    ensures RideTime(located, distances, geo, speed, route, i, j)
      == (RoadLength(located, distances, geo, route, j) - RoadLength(located, distances, geo, route, i)) / speed
    decreases j - i
  {
    if j > i {
      RideTimeByRoad(located, distances, geo, speed, route, i, j - 1);
      var d := RoadDistance(located, distances, geo, route[j - 1], route[j]);
      var before := RoadLength(located, distances, geo, route, j - 1) - RoadLength(located, distances, geo, route, i);
      assert before / speed + d / speed == (before + d) / speed;
    }
  }

  /** A ride of bus `bus` from its `i`-th stop to its `j`-th. */
  datatype Hop = Hop(bus: string, i: nat, j: nat)

  /** The rides boarding at stop `i` of a route of `n` stops, in order of the alighting stop. */
  function Row(bus: string, n: nat, i: nat): (r: seq<Hop>)
    requires i < n
    ensures |r| == n - i - 1
    ensures forall t :: 0 <= t < |r| ==> r[t] == Hop(bus, i, i + 1 + t)
  {
    seq(n - i - 1, t requires 0 <= t => Hop(bus, i, i + 1 + t))
  }

  /** The rides boarding at the first `i` stops of a route of `n` stops, in the order `InitRouter` adds them. */
  function Rows(bus: string, n: nat, i: nat): (r: seq<Hop>)
    requires i <= n
    ensures forall k :: 0 <= k < |r| ==> r[k].bus == bus && r[k].i < i && r[k].i < r[k].j < n
  {
    if i == 0 then [] else Rows(bus, n, i - 1) + Row(bus, n, i - 1)
  }

  /** Every ride from a stop among the first `i` to a later stop is there. */
  lemma {:induction false} RowsCover(bus: string, n: nat, i: nat)
    requires i <= n
    ensures forall a, b :: 0 <= a < i && a < b < n ==> Hop(bus, a, b) in Rows(bus, n, i)
  {
    if i > 0 {
      RowsCover(bus, n, i - 1);
      var row := Row(bus, n, i - 1);
      forall t | 0 <= t < |row|
        ensures row[t] in Rows(bus, n, i)
      {
        assert Rows(bus, n, i)[|Rows(bus, n, i - 1)| + t] == row[t];
      }
      forall a, b | 0 <= a < i && a < b < n
        ensures Hop(bus, a, b) in Rows(bus, n, i)
      {
        if a == i - 1 {
          assert row[b - i] == Hop(bus, a, b);
        }
      }
    }
  }

  /** `2 * |Rows(n, i)|` rides: `(n - 1) + (n - 2) + ... + (n - i)`, twice. */
  lemma {:induction false} RowsCount(bus: string, n: nat, i: nat)
    requires i <= n
    ensures 2 * |Rows(bus, n, i)| == i * (2 * n - i - 1)
  {
    if i > 0 {
      RowsCount(bus, n, i - 1);
      assert |Rows(bus, n, i)| == |Rows(bus, n, i - 1)| + (n - i);
      TriangleStep(n, i);
    }
  }

  /** `(i - 1)(2n - i) + 2(n - i) == i(2n - i - 1)`. */
  lemma TriangleStep(n: int, i: int)
    ensures (i - 1) * (2 * n - i) + 2 * (n - i) == i * (2 * n - i - 1)
  {
    assert (i - 1) * (2 * n - i) == i * (2 * n - i) - (2 * n - i);
    assert i * (2 * n - i - 1) == i * (2 * n - i) - i;
  }

  predicate Registered(net: Network, order: seq<string>)
  {
    forall k :: 0 <= k < |order| ==> order[k] in net.busByName
  }

  /** The number of stops on bus `bus`. */
  function Length(net: Network, bus: string): nat
    requires bus in net.busByName
  {
    |net.busByName[bus].stops|
  }

  /** The rides of the buses in `order`, bus after bus, each bus's rides as `Rows`. */
  function Hops(net: Network, order: seq<string>): (r: seq<Hop>)
    requires Registered(net, order)
    ensures forall k :: 0 <= k < |r| ==>
      r[k].bus in order && r[k].bus in net.busByName && r[k].i < r[k].j < Length(net, r[k].bus)
  {
    if |order| == 0 then []
    else
      var bus := order[|order| - 1];
      Hops(net, order[..|order| - 1]) + Rows(bus, Length(net, bus), Length(net, bus))
  }

  /** `L (L - 1) / 2` rides for each bus of `L` stops. */
  function RideCount(net: Network, order: seq<string>): nat
    requires Registered(net, order)
  {
    if |order| == 0 then 0
    else
      var n := Length(net, order[|order| - 1]);
      RideCount(net, order[..|order| - 1]) + n * (n - 1) / 2
  }

  lemma {:induction false} HopsCount(net: Network, order: seq<string>)
    requires Registered(net, order)
    ensures |Hops(net, order)| == RideCount(net, order)
  {
    if |order| > 0 {
      var bus := order[|order| - 1];
      var n := Length(net, bus);
      HopsCount(net, order[..|order| - 1]);
      RowsCount(bus, n, n);
      var m: int := n;
      assert m * (2 * m - m - 1) == m * (m - 1);
    }
  }

  /** Every ride between two positions of a bus in `order` is one of the hops. */
  lemma {:induction false} HopsCover(net: Network, order: seq<string>)
    requires Registered(net, order)
    ensures forall bus, a, b :: bus in order && 0 <= a < b < Length(net, bus) ==> Hop(bus, a, b) in Hops(net, order)
  {
    if |order| > 0 {
      var init := order[..|order| - 1];
      var last := order[|order| - 1];
      HopsCover(net, init);
      RowsCover(last, Length(net, last), Length(net, last));
      forall bus, a, b | bus in order && 0 <= a < b < Length(net, bus)
        ensures Hop(bus, a, b) in Hops(net, order)
      {
        if bus != last {
          var k :| 0 <= k < |order| && order[k] == bus;
          assert init[k] == bus;
        }
      }
    }
  }

  /** A hop names a registered bus and two positions on its route, the first earlier. */
  predicate HopOf(net: Network, h: Hop)
  {
    h.bus in net.busByName && h.i < h.j < Length(net, h.bus)
  }

  /** The time of a hop, as `InitRouter` accumulates it. */
  function HopTime(net: Network, settings: RoutingSettings, geo: (Coords, Coords) -> real, h: Hop): real
    requires Served(net) && settings.busVelocity != 0.0 && HopOf(net, h)
  {
    RideTime(Located(net), net.distances, geo, Speed(settings), net.busByName[h.bus].stops, h.i, h.j)
  }

  /** The edge of a hop: boarding at its first stop, arriving at its second. */
  function HopEdge(net: Network, settings: RoutingSettings, geo: (Coords, Coords) -> real, h: Hop): Edge
    requires Served(net) && settings.busVelocity != 0.0 && HopOf(net, h)
  {
    var route := net.busByName[h.bus].stops;
    Edge(2 * net.index[route[h.i]] + 1, 2 * net.index[route[h.j]], HopTime(net, settings, geo, h))
  }

  function HopItem(net: Network, settings: RoutingSettings, geo: (Coords, Coords) -> real, h: Hop): RouteItem
    requires Served(net) && settings.busVelocity != 0.0 && HopOf(net, h)
  {
    Ride(h.bus, h.j - h.i, HopTime(net, settings, geo, h))
  }

  predicate AllHops(net: Network, hops: seq<Hop>)
  {
    forall k :: 0 <= k < |hops| ==> HopOf(net, hops[k])
  }

  function HopEdges(net: Network, settings: RoutingSettings, geo: (Coords, Coords) -> real, hops: seq<Hop>): seq<Edge>
    requires Served(net) && settings.busVelocity != 0.0 && AllHops(net, hops)
  {
    seq(|hops|, k requires 0 <= k < |hops| => HopEdge(net, settings, geo, hops[k]))
  }

  function HopItems(net: Network, settings: RoutingSettings, geo: (Coords, Coords) -> real, hops: seq<Hop>): seq<RouteItem>
    requires Served(net) && settings.busVelocity != 0.0 && AllHops(net, hops)
  {
    seq(|hops|, k requires 0 <= k < |hops| => HopItem(net, settings, geo, hops[k]))
  }

  /** The first `n` wait edges: stop `i` waits from `2i` to `2i + 1`. */
  function WaitEdges(n: nat, wait: int): seq<Edge>
  {
    seq(n, i requires 0 <= i => Edge(2 * i, 2 * i + 1, wait as real))
  }

  /** The wait items of the first `n` stops. */
  function WaitItems(stops: seq<Stop>, n: nat, wait: int): seq<RouteItem>
    requires n <= |stops|
  {
    seq(n, i requires 0 <= i < n => Wait(stops[i].name, ToSize(wait)))
  }

  /** The graph `InitRouter` builds: the wait edges, then every bus's ride edges. */
  function GraphEdges(net: Network, settings: RoutingSettings, geo: (Coords, Coords) -> real, order: seq<string>): seq<Edge>
    requires Served(net) && settings.busVelocity != 0.0 && Registered(net, order)
  {
    WaitEdges(|net.stops|, settings.busWaitTime) + HopEdges(net, settings, geo, Hops(net, order))
  }

  /** The route items `InitRouter` appends, one per edge. */
  function GraphItems(net: Network, settings: RoutingSettings, geo: (Coords, Coords) -> real, order: seq<string>): seq<RouteItem>
    requires Served(net) && settings.busVelocity != 0.0 && Registered(net, order)
  {
    WaitItems(net.stops, |net.stops|, settings.busWaitTime) + HopItems(net, settings, geo, Hops(net, order))
  }

  /** The time an item stands for. */
  function ItemTime(item: RouteItem): real
  {
    match item
    case Wait(_, t) => t as real
    case Ride(_, _, t) => t
  }

  /**
   * The items stay in lockstep with the edges, one item per edge, and there
   * are `|stops| + L (L - 1) / 2` of them for buses of `L` stops.
   */
  lemma LockstepCount(net: Network, settings: RoutingSettings, geo: (Coords, Coords) -> real, order: seq<string>)
    requires Served(net) && settings.busVelocity != 0.0 && Registered(net, order)
    ensures |GraphEdges(net, settings, geo, order)| == |GraphItems(net, settings, geo, order)|
      == |net.stops| + RideCount(net, order)
  {
    HopsCount(net, order);
  }

  /** Edge `i` of the first `|stops|` is stop `i`'s wait, and its item that stop's wait. */
  lemma LockstepWait(net: Network, settings: RoutingSettings, geo: (Coords, Coords) -> real, order: seq<string>, e: nat)
    requires Served(net) && settings.busVelocity != 0.0 && Registered(net, order)
    requires e < |net.stops|
    ensures GraphEdges(net, settings, geo, order)[e] == Edge(2 * e, 2 * e + 1, settings.busWaitTime as real)
    ensures GraphItems(net, settings, geo, order)[e] == Wait(net.stops[e].name, ToSize(settings.busWaitTime))
  {
  }

  /**
   * Every later edge is the ride of a hop: it leaves the boarding vertex of
   * the hop's first stop for the arrival vertex of its second, and its item
   * is a ride of the hop's bus over `j - i` stops with the edge's weight as
   * time.
   */
  lemma LockstepRide(net: Network, settings: RoutingSettings, geo: (Coords, Coords) -> real, order: seq<string>, e: nat)
    requires Served(net) && settings.busVelocity != 0.0 && Registered(net, order)
    requires |net.stops| <= e < |GraphEdges(net, settings, geo, order)|
    ensures e - |net.stops| < |Hops(net, order)|
    ensures
      var h := Hops(net, order)[e - |net.stops|];
      var route := net.busByName[h.bus].stops;
      var edge := GraphEdges(net, settings, geo, order)[e];
      edge == Edge(2 * net.index[route[h.i]] + 1, 2 * net.index[route[h.j]], HopTime(net, settings, geo, h)) &&
      GraphItems(net, settings, geo, order)[e] == Ride(h.bus, h.j - h.i, edge.weight)
  {
    var hops := Hops(net, order);
    var n := |net.stops|;
    assert GraphEdges(net, settings, geo, order)[e] == HopEdges(net, settings, geo, hops)[e - n];
    assert GraphItems(net, settings, geo, order)[e] == HopItems(net, settings, geo, hops)[e - n];
  }

  /** Every edge joins two of the `2 * |stops|` vertices; ride edges go from odd to even ones. */
  lemma EdgesInGraph(net: Network, settings: RoutingSettings, geo: (Coords, Coords) -> real, order: seq<string>, e: nat)
    requires Served(net) && settings.busVelocity != 0.0 && Registered(net, order)
    requires e < |GraphEdges(net, settings, geo, order)|
    ensures GraphEdges(net, settings, geo, order)[e].src < 2 * |net.stops|
    ensures GraphEdges(net, settings, geo, order)[e].dst < 2 * |net.stops|
    ensures |net.stops| <= e ==>
      GraphEdges(net, settings, geo, order)[e].src % 2 == 1 && GraphEdges(net, settings, geo, order)[e].dst % 2 == 0
  {
    if |net.stops| <= e {
      RideEdgeInGraph(net, settings, geo, order, e);
    } else {
      LockstepWait(net, settings, geo, order, e);
    }
  }

  lemma RideEdgeInGraph(net: Network, settings: RoutingSettings, geo: (Coords, Coords) -> real, order: seq<string>, e: nat)
    requires Served(net) && settings.busVelocity != 0.0 && Registered(net, order)
    requires |net.stops| <= e < |GraphEdges(net, settings, geo, order)|
    ensures
      var edge := GraphEdges(net, settings, geo, order)[e];
      edge.src < 2 * |net.stops| && edge.dst < 2 * |net.stops| && edge.src % 2 == 1 && edge.dst % 2 == 0
  {
    LockstepRide(net, settings, geo, order, e);
    var h := Hops(net, order)[e - |net.stops|];
    var route := net.busByName[h.bus].stops;
    assert route[h.i] in net.index && route[h.j] in net.index;
    assert net.index[route[h.i]] < |net.stops| && net.index[route[h.j]] < |net.stops|;
  }

  /** With a wait time that fits a `size_t`, each item's time is its edge's weight. */
  lemma ItemTimes(net: Network, settings: RoutingSettings, geo: (Coords, Coords) -> real, order: seq<string>)
    requires Served(net) && settings.busVelocity != 0.0 && Registered(net, order)
    requires 0 <= settings.busWaitTime < SizeModulus
    ensures |GraphItems(net, settings, geo, order)| == |GraphEdges(net, settings, geo, order)|
    ensures forall e :: 0 <= e < |GraphEdges(net, settings, geo, order)| ==>
      ItemTime(GraphItems(net, settings, geo, order)[e]) == GraphEdges(net, settings, geo, order)[e].weight
  {
    forall e | 0 <= e < |GraphEdges(net, settings, geo, order)|
      ensures ItemTime(GraphItems(net, settings, geo, order)[e]) == GraphEdges(net, settings, geo, order)[e].weight
    {
      if e < |net.stops| {
        LockstepWait(net, settings, geo, order, e);
      } else {
        LockstepRide(net, settings, geo, order, e);
      }
    }
  }

  /** The sum of the weights of the edges `ids` names. */
  function Weight(edges: seq<Edge>, ids: seq<nat>): real
    requires forall k :: 0 <= k < |ids| ==> ids[k] < |edges|
  {
    if |ids| == 0 then 0.0 else Weight(edges, ids[..|ids| - 1]) + edges[ids[|ids| - 1]].weight
  }

  /** The items the edges `ids` stand for, in order. */
  function PathItems(items: seq<RouteItem>, ids: seq<nat>): (r: seq<RouteItem>)
    requires forall k :: 0 <= k < |ids| ==> ids[k] < |items|
    ensures |r| == |ids| && forall k :: 0 <= k < |ids| ==> r[k] == items[ids[k]]
  {
    seq(|ids|, k requires 0 <= k < |ids| => items[ids[k]])
  }

  /** The sum of the times of a route's items. */
  function ItemsTime(items: seq<RouteItem>): real
  {
    if |items| == 0 then 0.0 else ItemsTime(items[..|items| - 1]) + ItemTime(items[|items| - 1])
  }

  /**
   * Where each item's time is its edge's weight, the items of a path take,
   * together, the path's weight: a route's total time is the sum of the
   * times of its items.
   */
  lemma {:induction false} PathTime(edges: seq<Edge>, items: seq<RouteItem>, ids: seq<nat>)
    requires |edges| == |items|
    requires forall e :: 0 <= e < |edges| ==> ItemTime(items[e]) == edges[e].weight
    requires forall k :: 0 <= k < |ids| ==> ids[k] < |edges|
    ensures ItemsTime(PathItems(items, ids)) == Weight(edges, ids)
  {
    if |ids| > 0 {
      var init := ids[..|ids| - 1];
      PathTime(edges, items, init);
      assert PathItems(items, ids)[..|ids| - 1] == PathItems(items, init);
    }
  }

  /** Concatenated hops give concatenated edges and items. */
  lemma HopsAppend(net: Network, settings: RoutingSettings, geo: (Coords, Coords) -> real, a: seq<Hop>, b: seq<Hop>)
    requires Served(net) && settings.busVelocity != 0.0 && AllHops(net, a) && AllHops(net, b)
    ensures AllHops(net, a + b)
    ensures HopEdges(net, settings, geo, a + b) == HopEdges(net, settings, geo, a) + HopEdges(net, settings, geo, b)
    ensures HopItems(net, settings, geo, a + b) == HopItems(net, settings, geo, a) + HopItems(net, settings, geo, b)
  {
    assert forall k :: 0 <= k < |b| ==> (a + b)[|a| + k] == b[k];
  }

  lemma Concat<T>(a: seq<T>, b: seq<T>, c: seq<T>)
    ensures a + b + c == a + (b + c)
  {
  }

  /** One more hop of a row: its edge and item follow those of the hops before it. */
  lemma RowStep(net: Network, settings: RoutingSettings, geo: (Coords, Coords) -> real, row: seq<Hop>, t: nat)
    requires Served(net) && settings.busVelocity != 0.0 && AllHops(net, row) && t < |row|
    ensures HopEdges(net, settings, geo, row[..t + 1]) == HopEdges(net, settings, geo, row[..t]) + [HopEdge(net, settings, geo, row[t])]
    ensures HopItems(net, settings, geo, row[..t + 1]) == HopItems(net, settings, geo, row[..t]) + [HopItem(net, settings, geo, row[t])]
  {
    assert row[..t + 1] == row[..t] + [row[t]];
    HopsAppend(net, settings, geo, row[..t], [row[t]]);
  }

  /**
   * `BusUpdateRequest::ParseFrom` on a JSON node: the stops as listed, and
   * for a bus that is not a round trip the way back appended.
   */
  method BusFromJson(name: string, stopNames: seq<string>, isRoundTrip: bool) returns (bus: Bus)
    ensures bus.name == name
    ensures isRoundTrip ==> bus.stops == stopNames
    ensures !isRoundTrip ==> bus.stops == Expanded(stopNames)
  {
    var stops: seq<string> := [];
    for i := 0 to |stopNames|
      invariant stops == stopNames[..i]
    {
      stops := stops + [stopNames[i]];
    }
    assert stops == stopNames;
    if isRoundTrip {
      return Bus(name, stops);
    }
    stops := AppendReversed(stops);
    bus := Bus(name, stops);
  }

  class TransportGuide {
    const settings: RoutingSettings
    /** `GetLength` on two coordinates. */
    const geo: (Coords, Coords) -> real
    var stops: seq<Stop>
    var stopIndxByName: map<string, nat>
    var busByName: map<string, Bus>
    var stopToBuses: map<string, set<string>>
    var distances: map<(string, string), real>
    /** The routing graph: `2 * |stops|` vertices and edge `k` as `edges[k]`. */
    var vertexCount: nat
    var edges: seq<Edge>
    var routeItems: seq<RouteItem>

    function Net(): Network
      reads this`stops, this`stopIndxByName, this`busByName, this`distances
    {
      Network(stops, stopIndxByName, busByName, distances)
    }

    predicate Valid()
      reads this`stops, this`stopIndxByName, this`busByName, this`distances
    {
      Indexed(Net())
    }

    constructor(settings: RoutingSettings, geo: (Coords, Coords) -> real)
      ensures this.settings == settings && this.geo == geo
      ensures Net() == Network([], map[], map[], map[]) && stopToBuses == map[]
      ensures vertexCount == 0 && edges == [] && routeItems == []
      ensures Valid()
    {
      this.settings := settings;
      this.geo := geo;
      stops := [];
      stopIndxByName := map[];
      busByName := map[];
      stopToBuses := map[];
      distances := map[];
      vertexCount := 0;
      edges := [];
      routeItems := [];
    }

    /** `AddStop`: the stop gets the next index, and its name points to it from now on. */
    method AddStop(stop: Stop)
      requires Valid()
      modifies this`stops, this`stopIndxByName
      ensures Valid()
      ensures stopIndxByName == old(stopIndxByName)[stop.name := |old(stops)|]
      ensures stops == old(stops) + [stop]
      ensures Located(Net()) == Located(old(Net()))[stop.name := stop]
    {
      AddStopLocated(Net(), stop);
      stopIndxByName := stopIndxByName[stop.name := |stops|];
      stops := stops + [stop];
    }

    /** `AddBus`: the bus replaces any of its name and is inserted into the set of each of its stops. */
    method AddBus(bus: Bus)
      modifies this`busByName, this`stopToBuses
      ensures busByName == old(busByName)[bus.name := bus]
      ensures stopToBuses == Transit.Listed(old(stopToBuses), bus.stops, bus.name)
    {
      busByName := busByName[bus.name := bus];
      for i := 0 to |bus.stops|
        invariant busByName == old(busByName)[bus.name := bus]
        invariant stopToBuses == Transit.Listed(old(stopToBuses), bus.stops[..i], bus.name)
      {
        assert bus.stops[..i + 1][..i] == bus.stops[..i];
        var stop := bus.stops[i];
        stopToBuses := stopToBuses[stop := BusesAt(stopToBuses, stop) + {bus.name}];
      }
      assert bus.stops[..|bus.stops|] == bus.stops;
    }

    /** `AddDistance`: only the ordered pair `(stop1, stop2)` is set. */
    method AddDistance(stop1: string, stop2: string, distance: real)
      modifies this`distances
      ensures distances == old(distances)[(stop1, stop2) := distance]
    {
      distances := distances[(stop1, stop2) := distance];
    }

    /**
     * `GetDistance`: the distance stored for `(a, b)`, else the one stored
     * for `(b, a)`, else the geodesic length between the stops the two
     * names index.
     */
    function GetDistance(a: string, b: string): (r: real)
      reads this`stops, this`stopIndxByName, this`busByName, this`distances
      requires Valid() && a in stopIndxByName && b in stopIndxByName
      ensures (a, b) in distances ==> r == distances[(a, b)]
      ensures (a, b) !in distances && (b, a) in distances ==> r == distances[(b, a)]
      ensures (a, b) !in distances && (b, a) !in distances ==>
        r == geo(stops[stopIndxByName[a]].coords, stops[stopIndxByName[b]].coords)
    {
      RoadDistance(Located(Net()), distances, geo, a, b)
    }

    /**
     * `InitRouter`, visiting the buses in `order` (the iteration order of
     * `busByName`): the wait edges and items of every stop, then for each
     * bus and each pair of positions `i < j` on its route the ride edge and
     * item, with the ride time summed leg by leg.
     */
    method InitRouter(order: seq<string>)
      requires Valid() && Served(Net()) && settings.busVelocity != 0.0
      requires Registered(Net(), order)
      requires forall bus :: bus in busByName ==> bus in order
      requires forall k, l :: 0 <= k < l < |order| ==> order[k] != order[l]
      modifies this`vertexCount, this`edges, this`routeItems
      ensures vertexCount == 2 * |stops|
      ensures edges == GraphEdges(Net(), settings, geo, order)
      ensures routeItems == old(routeItems) + GraphItems(Net(), settings, geo, order)
    {
      AddWaits();
      AddRides(order);
      Concat(old(routeItems), WaitItems(stops, |stops|, settings.busWaitTime), HopItems(Net(), settings, geo, Hops(Net(), order)));
      vertexCount := 2 * |stops|;
    }

    /** The ride edges and items of the buses in `order`, bus after bus. */
    method AddRides(order: seq<string>)
      requires Valid() && Served(Net()) && settings.busVelocity != 0.0
      requires Registered(Net(), order)
      modifies this`edges, this`routeItems
      ensures edges == old(edges) + HopEdges(Net(), settings, geo, Hops(Net(), order))
      ensures routeItems == old(routeItems) + HopItems(Net(), settings, geo, Hops(Net(), order))
    {
      ghost var net := Net();
      for k := 0 to |order|
        invariant edges == old(edges) + HopEdges(net, settings, geo, Hops(net, order[..k]))
        invariant routeItems == old(routeItems) + HopItems(net, settings, geo, Hops(net, order[..k]))
      {
        var bus := order[k];
        var n := Length(net, bus);
        ghost var before := Hops(net, order[..k]);
        assert order[..k + 1][..k] == order[..k];
        assert Hops(net, order[..k + 1]) == before + Rows(bus, n, n);
        HopsAppend(net, settings, geo, before, Rows(bus, n, n));
        AddBusRides(bus);
        Concat(old(edges), HopEdges(net, settings, geo, before), HopEdges(net, settings, geo, Rows(bus, n, n)));
        Concat(old(routeItems), HopItems(net, settings, geo, before), HopItems(net, settings, geo, Rows(bus, n, n)));
      }
      assert order[..|order|] == order;
    }

    /** The wait edge and item of every stop, in the order of the stops. */
    method AddWaits()
      modifies this`edges, this`routeItems
      ensures edges == WaitEdges(|stops|, settings.busWaitTime)
      ensures routeItems == old(routeItems) + WaitItems(stops, |stops|, settings.busWaitTime)
    {
      edges := [];
      var wait := settings.busWaitTime;
      for i := 0 to |stops|
        invariant edges == WaitEdges(i, wait)
        invariant routeItems == old(routeItems) + WaitItems(stops, i, wait)
      {
        edges := edges + [Edge(2 * i, 2 * i + 1, wait as real)];
        routeItems := routeItems + [Wait(stops[i].name, ToSize(wait))];
        assert edges == WaitEdges(i + 1, wait);
        assert routeItems == old(routeItems) + WaitItems(stops, i + 1, wait);
      }
    }

    /** The ride edges and items of one bus, boarding stop by boarding stop. */
    method AddBusRides(bus: string)
      requires Valid() && Served(Net()) && settings.busVelocity != 0.0 && bus in busByName
      modifies this`edges, this`routeItems
      ensures edges == old(edges) + HopEdges(Net(), settings, geo, Rows(bus, Length(Net(), bus), Length(Net(), bus)))
      ensures routeItems == old(routeItems) + HopItems(Net(), settings, geo, Rows(bus, Length(Net(), bus), Length(Net(), bus)))
    {
      ghost var net := Net();
      var n := |busByName[bus].stops|;
      for i := 0 to n
        invariant edges == old(edges) + HopEdges(net, settings, geo, Rows(bus, n, i))
        invariant routeItems == old(routeItems) + HopItems(net, settings, geo, Rows(bus, n, i))
      {
        HopsAppend(net, settings, geo, Rows(bus, n, i), Row(bus, n, i));
        AddRow(bus, i);
        Concat(old(edges), HopEdges(net, settings, geo, Rows(bus, n, i)), HopEdges(net, settings, geo, Row(bus, n, i)));
        Concat(old(routeItems), HopItems(net, settings, geo, Rows(bus, n, i)), HopItems(net, settings, geo, Row(bus, n, i)));
      }
    }

    /** The rides boarding at stop `i` of a bus: `time` and `spanCount` grow by one leg each step. */
    method AddRow(bus: string, i: nat)
      requires Valid() && Served(Net()) && settings.busVelocity != 0.0
      requires bus in busByName && i < Length(Net(), bus)
      modifies this`edges, this`routeItems
      ensures edges == old(edges) + HopEdges(Net(), settings, geo, Row(bus, Length(Net(), bus), i))
      ensures routeItems == old(routeItems) + HopItems(Net(), settings, geo, Row(bus, Length(Net(), bus), i))
    {
      ghost var net := Net();
      var route := busByName[bus].stops;
      ghost var row := Row(bus, |route|, i);
      var time := 0.0;
      var spanCount := 0;
      for j := i + 1 to |route|
        invariant time == RideTime(Located(net), net.distances, geo, Speed(settings), route, i, j - 1)
        invariant spanCount == j - 1 - i
        invariant edges == old(edges) + HopEdges(net, settings, geo, row[..j - 1 - i])
        invariant routeItems == old(routeItems) + HopItems(net, settings, geo, row[..j - 1 - i])
      {
        spanCount := spanCount + 1;
        ghost var t := j - 1 - i;
        RowStep(net, settings, geo, row, t);
        time := PushRide(net, bus, i, j, spanCount, time);
        Concat(old(edges), HopEdges(net, settings, geo, row[..t]), [HopEdge(net, settings, geo, row[t])]);
        Concat(old(routeItems), HopItems(net, settings, geo, row[..t]), [HopItem(net, settings, geo, row[t])]);
      }
      assert row[..|route| - 1 - i] == row;
    }

    /** One more leg of a ride: its time, then its edge and item, pushed together. */
    method PushRide(ghost net: Network, bus: string, i: nat, j: nat, spanCount: nat, before: real) returns (time: real)
      requires net == Net() && Served(net) && settings.busVelocity != 0.0 && HopOf(net, Hop(bus, i, j))
      requires spanCount == j - i
      requires before == RideTime(Located(net), net.distances, geo, Speed(settings), net.busByName[bus].stops, i, j - 1)
      modifies this`edges, this`routeItems
      ensures time == HopTime(net, settings, geo, Hop(bus, i, j))
      ensures edges == old(edges) + [HopEdge(net, settings, geo, Hop(bus, i, j))]
      ensures routeItems == old(routeItems) + [HopItem(net, settings, geo, Hop(bus, i, j))]
    {
      var route := busByName[bus].stops;
      var located := Located(Net());
      time := before + RoadDistance(located, distances, geo, route[j - 1], route[j]) / Speed(settings);
      edges := edges + [Edge(2 * stopIndxByName[route[i]] + 1, 2 * stopIndxByName[route[j]], time)];
      routeItems := routeItems + [Ride(bus, spanCount, time)];
    }

    /**
     * `GetRoute`: the router's answer between the arrival vertices of the
     * two stops, its edges mapped back to their route items in order. An
     * unknown stop makes `at` throw.
     */
    method GetRoute(from: string, to: string, router: (nat, nat) -> Option<RouterRoute>) returns (r: Result<Option<Route>, Failure>)
      requires |edges| <= |routeItems|
      requires forall u, v :: router(u, v).Some? ==>
        forall k :: 0 <= k < |router(u, v).value.edgeIds| ==> router(u, v).value.edgeIds[k] < |edges|
      ensures r.Err? <==> from !in stopIndxByName || to !in stopIndxByName
      ensures r.Ok? ==>
        var answer := router(2 * stopIndxByName[from], 2 * stopIndxByName[to]);
        (r.value.None? <==> answer.None?) &&
        (r.value.Some? ==> r.value.value == Route(answer.value.weight, PathItems(routeItems, answer.value.edgeIds)))
    {
      if from !in stopIndxByName || to !in stopIndxByName {
        return Err(OutOfRange);
      }
      var answer := router(2 * stopIndxByName[from], 2 * stopIndxByName[to]);
      if answer.None? {
        return Ok(None);
      }
      var ids := answer.value.edgeIds;
      var items: seq<RouteItem> := [];
      for i := 0 to |ids|
        invariant |items| == i
        invariant forall k :: 0 <= k < i ==> items[k] == routeItems[ids[k]]
      {
        items := items + [routeItems[ids[i]]];
      }
      assert items == PathItems(routeItems, ids);
      r := Ok(Some(Route(answer.value.weight, items)));
    }
  }
}
