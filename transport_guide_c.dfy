/**
 * The third transit guide (transport_guide_C). Stop lines now carry road
 * distances to other stops (`"<D>m to <name>"`), a bus query reports the
 * road length of the route and its curvature (road length over geodesic
 * length), and a stop query lists the buses passing through the stop.
 *
 * The geodesic length between two coordinates (`GetLength`) and the number
 * conversion `ConvertToDouble` are uninterpreted functions.
 */
module TransitC {
  import opened Wrappers
  import opened Transit

  datatype UpdateRequest =
    | StopUpdate(stop: Stop, distances: map<(string, string), real>)
    | BusUpdate(bus: Bus)

  /**
   * `ParseUpdateRequest`: the first space-separated word picks the kind of
   * request, the rest of the line is parsed by that kind; an unknown word
   * gives no request.
   */
  function ParseUpdateRequest(line: string, toReal: string -> real): Option<UpdateRequest>
  {
    var (word, rest) := ReadToken(line, " ");
    match UpdateTypeOf(word)
    case None => None
    case Some(StopType) =>
      var (stop, distances) := StopFromText(rest, toReal);
      Some(StopUpdate(stop, distances))
    case Some(BusType) => Some(BusUpdate(BusFromText(rest)))
  }

  lemma ParseUpdateKinds(word: string, text: string, toReal: string -> real)
    requires ' ' !in word
    ensures ParseUpdateRequest(word + " " + text, toReal).None? <==> word != "Stop" && word != "Bus"
    ensures word == "Stop" ==>
      ParseUpdateRequest(word + " " + text, toReal)
        == Some(StopUpdate(StopFromText(text, toReal).0, StopFromText(text, toReal).1))
    ensures word == "Bus" ==> ParseUpdateRequest(word + " " + text, toReal) == Some(BusUpdate(BusFromText(text)))
  {
    FirstAfter(word, " ", text, 0);
  }

  datatype ReadRequest = BusRead(name: string) | StopRead(name: string)

  /**
   * `ParseReadRequest`: `Bus <name>` or `Stop <name>`, the name being the
   * rest of the line. The two query words are the two update words.
   */
  function ParseReadRequest(line: string): Option<ReadRequest>
  {
    var (word, rest) := ReadToken(line, " ");
    match UpdateTypeOf(word)
    case None => None
    case Some(BusType) => Some(BusRead(rest))
    case Some(StopType) => Some(StopRead(rest))
  }

  lemma ParseReadKinds(word: string, name: string)
    requires ' ' !in word
    ensures ParseReadRequest(word + " " + name)
      == if word == "Bus" then Some(BusRead(name))
         else if word == "Stop" then Some(StopRead(name))
         else None
  {
    FirstAfter(word, " ", name, 0);
  }

  /** The four tables of the guide, as a value. */
  datatype Registry = Registry(
    stopByName: map<string, Stop>,
    busByName: map<string, Bus>,
    stopToBuses: map<string, set<string>>,
    distances: map<(string, string), real>)

  /**
   * One update request: a stop is emplaced and then each of its distances
   * is stored under its ordered pair; a bus replaces any bus of its name
   * and is listed at each of its stops.
   */
  function Apply(reg: Registry, request: UpdateRequest): Registry
  {
    match request
    case StopUpdate(stop, distances) =>
      reg.(stopByName := Emplace(reg.stopByName, stop.name, stop), distances := reg.distances + distances)
    case BusUpdate(bus) =>
      reg.(busByName := reg.busByName[bus.name := bus], stopToBuses := Listed(reg.stopToBuses, bus.stops, bus.name))
  }

  /** `ProcessUpdateRequests`: the requests applied in order. */
  function Updated(reg: Registry, requests: seq<UpdateRequest>): Registry
  {
    if |requests| == 0 then reg else Apply(Updated(reg, requests[..|requests| - 1]), requests[|requests| - 1])
  }

  /** Every registered bus has a stop, as the query's `stops.size() - 1` needs. */
  predicate Routed(reg: Registry)
  {
    forall name :: name in reg.busByName ==> |reg.busByName[name].stops| > 0
  }

  /**
   * The curvature `routeLength / geoRouteLength`; a zero geodesic length,
   * which gives NaN or infinity on doubles, gives `None`.
   */
  function Curvature(routeLength: real, geoLength: real): (r: Option<real>)
    ensures r.Some? <==> geoLength != 0.0
    ensures r.Some? ==> r.value * geoLength == routeLength
  {
    if geoLength == 0.0 then None else Some(routeLength / geoLength)
  }

  datatype BusResponse =
    | BusNotFound(name: string)
    | BusFound(name: string, stopsCount: nat, uniqueStopsCount: nat, routeLength: real, curvature: Option<real>)

  datatype StopResponse = StopNotFound(name: string) | StopFound(name: string, buses: set<string>)

  datatype ReadResponse = BusReply(bus: BusResponse) | StopReply(stop: StopResponse)

  /**
   * A bus query for `name` fails: the bus exists, has a leg, and one of its
   * stops is not registered (`stopByName.at` throws).
   */
  predicate BusFails(reg: Registry, name: string)
  {
    name in reg.busByName && |reg.busByName[name].stops| > 1 &&
    exists s :: s in reg.busByName[name].stops && s !in reg.stopByName
  }

  /** What `BusReadRequest::Process` answers on a guide in state `reg`. */
  predicate BusAnswered(reg: Registry, geo: (Coords, Coords) -> real, name: string, r: Result<BusResponse, Failure>)
    requires Routed(reg)
  {
    if name !in reg.busByName then r == Ok(BusNotFound(name))
    else
      var stops := reg.busByName[name].stops;
      (r.Err? <==> BusFails(reg, name)) &&
      (r.Ok? ==>
         LegsKnown(reg.stopByName, stops, |stops| - 1) &&
         var road := RoadLength(reg.stopByName, reg.distances, geo, stops, |stops| - 1);
         var geodesic := GeoLength(reg.stopByName, geo, stops, |stops| - 1);
         r.value == BusFound(name, |stops|, |Names(stops)|, road, Curvature(road, geodesic)))
  }

  /** What `StopReadRequest::Process` answers. */
  function StopAnswer(reg: Registry, name: string): StopResponse
  {
    if name in reg.stopByName then StopFound(name, BusesAt(reg.stopToBuses, name)) else StopNotFound(name)
  }

  class TransportGuide {
    var stopByName: map<string, Stop>
    var busByName: map<string, Bus>
    var stopToBuses: map<string, set<string>>
    var distances: map<(string, string), real>
    /** `GetLength` on two coordinates. */
    const geo: (Coords, Coords) -> real

    function Snapshot(): Registry
      reads this
    {
      Registry(stopByName, busByName, stopToBuses, distances)
    }

    constructor(geo: (Coords, Coords) -> real)
      ensures Snapshot() == Registry(map[], map[], map[], map[]) && this.geo == geo
    {
      stopByName := map[];
      busByName := map[];
      stopToBuses := map[];
      distances := map[];
      this.geo := geo;
    }

    /** `AddStop`: `emplace`, so the first stop registered under a name stays. */
    method AddStop(stop: Stop)
      modifies this`stopByName
      ensures stopByName == Emplace(old(stopByName), stop.name, stop)
    {
      if stop.name !in stopByName {
        stopByName := stopByName[stop.name := stop];
      }
    }

    /** `AddBus`: the bus replaces any of its name and is inserted into the set of each of its stops. */
    method AddBus(bus: Bus)
      modifies this`busByName, this`stopToBuses
      ensures busByName == old(busByName)[bus.name := bus]
      ensures stopToBuses == Listed(old(stopToBuses), bus.stops, bus.name)
    {
      busByName := busByName[bus.name := bus];
      for i := 0 to |bus.stops|
        invariant busByName == old(busByName)[bus.name := bus]
        invariant stopToBuses == Listed(old(stopToBuses), bus.stops[..i], bus.name)
      {
        assert bus.stops[..i + 1][..i] == bus.stops[..i];
        var stop := bus.stops[i];
        stopToBuses := stopToBuses[stop := BusesAt(stopToBuses, stop) + {bus.name}];
      }
      assert bus.stops[..|bus.stops|] == bus.stops;
    }

    /** `AddDistance`: only the ordered pair `(stop1, stop2)` is set. */
    method AddDistance(stop1: string, stop2: string, distance: real)
      modifies this`distances
      ensures distances == old(distances)[(stop1, stop2) := distance]
    {
      distances := distances[(stop1, stop2) := distance];
    }

    /** `StopUpdateRequest::Process`, visiting the distances in any order. */
    method ProcessStopUpdate(stop: Stop, parsed: map<(string, string), real>)
      modifies this
      ensures Snapshot() == Apply(old(Snapshot()), StopUpdate(stop, parsed))
    {
      AddStop(stop);
      var pending := parsed.Keys;
      while pending != {}
        invariant pending <= parsed.Keys
        invariant stopByName == Emplace(old(stopByName), stop.name, stop)
        invariant busByName == old(busByName) && stopToBuses == old(stopToBuses)
        invariant distances == old(distances) + map p | p in parsed.Keys - pending :: parsed[p]
        decreases pending
      {
        var p :| p in pending;
        ghost var before := distances;
        AddDistance(p.0, p.1, parsed[p]);
        pending := pending - {p};
        assert distances == before[p := parsed[p]];
      }
      assert (map p | p in parsed.Keys - {} :: parsed[p]) == parsed;
    }

    /** `ProcessUpdateRequests`: each request is processed in turn. */
    method ProcessUpdates(requests: seq<UpdateRequest>)
      modifies this
      ensures Snapshot() == Updated(old(Snapshot()), requests)
    {
      for i := 0 to |requests|
        invariant Snapshot() == Updated(old(Snapshot()), requests[..i])
      {
        assert requests[..i + 1][..i] == requests[..i];
        match requests[i]
        case StopUpdate(stop, parsed) => ProcessStopUpdate(stop, parsed);
        case BusUpdate(bus) => AddBus(bus);
      }
      assert requests[..|requests|] == requests;
    }

    /**
     * `BusReadRequest::Process`: the number of stops, of distinct stops, the
     * road length (stored distances, else geodesic) and the curvature.
     */
    method ProcessBusRead(name: string) returns (r: Result<BusResponse, Failure>)
      requires Routed(Snapshot())
      ensures BusAnswered(Snapshot(), geo, name, r)
    {
      if name !in busByName {
        return Ok(BusNotFound(name));
      }
      var bus := busByName[name];
      var stops := bus.stops;
      var unique := GetUniqueStopsNumber(bus);
      var routeLength := 0.0;
      var geoRouteLength := 0.0;
      var i := 0;
      while i < |stops| - 1
        invariant 0 <= i <= |stops| - 1
        invariant LegsKnown(stopByName, stops, i)
        invariant routeLength == RoadLength(stopByName, distances, geo, stops, i)
        invariant geoRouteLength == GeoLength(stopByName, geo, stops, i)
      {
        if stops[i] !in stopByName || stops[i + 1] !in stopByName {
          return Err(OutOfRange);
        }
        routeLength := routeLength + RoadDistance(stopByName, distances, geo, stops[i], stops[i + 1]);
        geoRouteLength := geoRouteLength + GeoDistance(stopByName, geo, stops[i], stops[i + 1]);
        i := i + 1;
      }
      if |stops| > 1 {
        forall s | s in stops
          ensures s in stopByName
        {
          var k :| 0 <= k < |stops| && stops[k] == s;
        }
      }
      r := Ok(BusFound(name, |stops|, unique, routeLength, Curvature(routeLength, geoRouteLength)));
    }

    /** `ProcessReadRequests`: one response per request; a failing bus query ends the run. */
    method ProcessReadRequests(requests: seq<ReadRequest>) returns (r: Result<seq<ReadResponse>, Failure>)
      requires Routed(Snapshot())
      ensures r.Err? <==> exists k :: 0 <= k < |requests| && requests[k].BusRead? && BusFails(Snapshot(), requests[k].name)
      ensures r.Ok? ==> |r.value| == |requests|
      ensures r.Ok? ==> forall k :: 0 <= k < |requests| ==>
        match requests[k]
        case BusRead(name) => r.value[k].BusReply? && BusAnswered(Snapshot(), geo, name, Ok(r.value[k].bus))
        case StopRead(name) => r.value[k] == StopReply(StopAnswer(Snapshot(), name))
    {
      var responses: seq<ReadResponse> := [];
      for i := 0 to |requests|
        invariant |responses| == i
        invariant forall k :: 0 <= k < i ==> !(requests[k].BusRead? && BusFails(Snapshot(), requests[k].name))
        invariant forall k :: 0 <= k < i ==>
          match requests[k]
          case BusRead(name) => responses[k].BusReply? && BusAnswered(Snapshot(), geo, name, Ok(responses[k].bus))
          case StopRead(name) => responses[k] == StopReply(StopAnswer(Snapshot(), name))
      {
        match requests[i]
        case BusRead(name) =>
          var answer := ProcessBusRead(name);
          if answer.Err? {
            return Err(answer.error);
          }
          responses := responses + [BusReply(answer.value)];
        case StopRead(name) =>
          responses := responses + [StopReply(StopAnswer(Snapshot(), name))];
      }
      r := Ok(responses);
    }
  }

  /**
   * Where no leg of a route has a stored road distance, a bus with a
   * positive geodesic length has curvature 1.
   */
  lemma CurvatureWithoutDistances(reg: Registry, geo: (Coords, Coords) -> real, name: string, r: Result<BusResponse, Failure>)
    requires Routed(reg) && BusAnswered(reg, geo, name, r) && r.Ok? && name in reg.busByName
    requires forall i :: 0 < i < |reg.busByName[name].stops| ==>
      StoredDistance(reg.distances, reg.busByName[name].stops[i - 1], reg.busByName[name].stops[i]).None?
    requires GeoLength(reg.stopByName, geo, reg.busByName[name].stops, |reg.busByName[name].stops| - 1) != 0.0
    ensures r.value.curvature == Some(1.0)
  {
    var stops := reg.busByName[name].stops;
    RoadLengthWithoutDistances(reg.stopByName, reg.distances, geo, stops, |stops| - 1);
    var geodesic := GeoLength(reg.stopByName, geo, stops, |stops| - 1);
    assert geodesic / geodesic == 1.0;
  }

  function StopsOf(requests: seq<UpdateRequest>): (r: seq<Stop>)
    ensures |r| <= |requests|
  {
    if |requests| == 0 then []
    else
      var init := StopsOf(requests[..|requests| - 1]);
      match requests[|requests| - 1]
      case StopUpdate(stop, _) => init + [stop]
      case BusUpdate(_) => init
  }

  function BusesOf(requests: seq<UpdateRequest>): (r: seq<Bus>)
    ensures |r| <= |requests|
  {
    if |requests| == 0 then []
    else
      var init := BusesOf(requests[..|requests| - 1]);
      match requests[|requests| - 1]
      case StopUpdate(_, _) => init
      case BusUpdate(bus) => init + [bus]
  }

  /** The names of the buses, among `buses`, whose route passes through `stop`. */
  function Passing(buses: seq<Bus>, stop: string): set<string>
  {
    set k | 0 <= k < |buses| && stop in buses[k].stops :: buses[k].name
  }

  const Empty := Registry(map[], map[], map[], map[])

  /**
   * From an empty guide: the stops are those of the stop requests with the
   * first one per name kept, the buses those of the bus requests with the
   * last one per name kept, and a stop lists every bus any bus request
   * routed through it, including a route a later request of the same name
   * replaced.
   */
  lemma {:induction false} UpdatesFromEmpty(requests: seq<UpdateRequest>)
    ensures Updated(Empty, requests).stopByName == StopsEmplaced(StopsOf(requests))
    ensures Updated(Empty, requests).busByName == BusesAssigned(BusesOf(requests))
    ensures forall stop :: BusesAt(Updated(Empty, requests).stopToBuses, stop) == Passing(BusesOf(requests), stop)
  {
    if |requests| > 0 {
      var init := requests[..|requests| - 1];
      UpdatesFromEmpty(init);
      match requests[|requests| - 1]
      case StopUpdate(stop, _) =>
        assert (StopsOf(init) + [stop])[..|StopsOf(init)|] == StopsOf(init);
      case BusUpdate(bus) =>
        var buses := BusesOf(init);
        assert (buses + [bus])[..|buses|] == buses;
        ListedAt(Updated(Empty, init).stopToBuses, bus.stops, bus.name);
        forall stop
          ensures Passing(buses + [bus], stop) == Passing(buses, stop) + (if stop in bus.stops then {bus.name} else {})
        {
          PassingSnoc(buses, bus, stop);
        }
    }
  }

  lemma PassingSnoc(buses: seq<Bus>, bus: Bus, stop: string)
    ensures Passing(buses + [bus], stop) == Passing(buses, stop) + (if stop in bus.stops then {bus.name} else {})
  {
    var all := buses + [bus];
    forall n | n in Passing(all, stop)
      ensures n in Passing(buses, stop) + (if stop in bus.stops then {bus.name} else {})
    {
      var k :| 0 <= k < |all| && stop in all[k].stops && all[k].name == n;
      if k < |buses| {
        assert all[k] == buses[k];
      }
    }
    forall n | n in Passing(buses, stop)
      ensures n in Passing(all, stop)
    {
      var k :| 0 <= k < |buses| && stop in buses[k].stops && buses[k].name == n;
      assert all[k] == buses[k];
    }
    if stop in bus.stops {
      assert all[|buses|] == bus;
    }
  }

  /**
   * A stop query after a run of update requests from an empty guide finds
   * the stop exactly when a stop request named it, and then lists the
   * buses routed through it.
   */
  lemma StopQueryAfterUpdates(requests: seq<UpdateRequest>, name: string)
    ensures StopAnswer(Updated(Empty, requests), name).StopFound? <==>
      exists k :: 0 <= k < |StopsOf(requests)| && StopsOf(requests)[k].name == name
    ensures StopAnswer(Updated(Empty, requests), name).StopFound? ==>
      StopAnswer(Updated(Empty, requests), name).buses == Passing(BusesOf(requests), name)
  {
    UpdatesFromEmpty(requests);
    FirstStopKept(StopsOf(requests));
  }
}
