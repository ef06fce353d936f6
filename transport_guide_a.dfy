/**
 * The first transit guide (transport_guide_A): stops with coordinates and
 * buses with routes are read from text update requests, and a bus query
 * reports the number of stops, the number of distinct stops and the
 * geodesic length of the route.
 *
 * The geodesic length between two coordinates (`GetLength`, a haversine
 * formula on doubles) is an uninterpreted function the guide is built
 * with; `ConvertToDouble` is an uninterpreted `string -> real`.
 */
module TransitA {
  import opened Wrappers
  import opened Transit

  /** `Coords::FromString`: the latitude before `", "`, the longitude before the next space. */
  function CoordsFromText(text: string, toReal: string -> real): Coords
  {
    var (lat, rest) := ReadToken(text, ", ");
    var (lon, _) := ReadToken(rest, " ");
    Coords(toReal(lat), toReal(lon))
  }

  /** `StopUpdateRequest::ParseFrom`: `name: lat, lon`. */
  function PlainStopFromText(input: string, toReal: string -> real): Stop
  {
    var (name, rest) := ReadToken(input, ": ");
    Stop(name, CoordsFromText(rest, toReal))
  }

  /** A stop written as `name: lat, lon` reads back as that stop. */
  lemma PlainStopRoundTrip(name: string, lat: string, lon: string, toReal: string -> real)
    requires ':' !in name && ',' !in lat && ' ' !in lon
    ensures PlainStopFromText(name + ": " + lat + ", " + lon, toReal) == Stop(name, Coords(toReal(lat), toReal(lon)))
  {
    assert name + ": " + lat + ", " + lon == name + ": " + (lat + ", " + lon);
    FirstAfter(name, ": ", lat + ", " + lon, 0);
    FirstAfter(lat, ", ", lon, 0);
    NoSplit(lon, " ", 0);
  }

  datatype UpdateRequest = StopUpdate(stop: Stop) | BusUpdate(bus: Bus)

  /**
   * `ParseUpdateRequest`: the first space-separated word picks the kind of
   * request and the rest of the line is its text; a line whose first word
   * is neither `Stop` nor `Bus` gives no request.
   */
  function ParseUpdateRequest(line: string, toReal: string -> real): Option<UpdateRequest>
  {
    var (word, rest) := ReadToken(line, " ");
    match UpdateTypeOf(word)
    case None => None
    case Some(StopType) => Some(StopUpdate(PlainStopFromText(rest, toReal)))
    case Some(BusType) => Some(BusUpdate(BusFromText(rest)))
  }

  /** A line `word text` is a stop update, a bus update, or nothing, by its first word. */
  lemma ParseUpdateKinds(word: string, text: string, toReal: string -> real)
    requires ' ' !in word
    ensures ParseUpdateRequest(word + " " + text, toReal).None? <==> word != "Stop" && word != "Bus"
    ensures word == "Stop" ==> ParseUpdateRequest(word + " " + text, toReal) == Some(StopUpdate(PlainStopFromText(text, toReal)))
    ensures word == "Bus" ==> ParseUpdateRequest(word + " " + text, toReal) == Some(BusUpdate(BusFromText(text)))
  {
    FirstAfter(word, " ", text, 0);
  }

  /** `ParseReadRequest`: only `Bus <name>` is a query; the name is the rest of the line. */
  function ParseReadRequest(line: string): Option<string>
  {
    var (word, rest) := ReadToken(line, " ");
    if word == "Bus" then Some(rest) else None
  }

  lemma ParseReadKinds(word: string, name: string)
    requires ' ' !in word
    ensures ParseReadRequest(word + " " + name) == if word == "Bus" then Some(name) else None
  {
    FirstAfter(word, " ", name, 0);
  }

  /** The answer to a bus query. */
  datatype BusResponse =
    | NotFound(name: string)
    | Found(name: string, stopsCount: nat, uniqueStopsCount: nat, routeLength: real)

  class TransportGuide {
    var stopByName: map<string, Stop>
    var busByName: map<string, Bus>
    /** `GetLength` on two coordinates. */
    const geo: (Coords, Coords) -> real

    constructor(geo: (Coords, Coords) -> real)
      ensures stopByName == map[] && busByName == map[] && this.geo == geo
    {
      stopByName := map[];
      busByName := map[];
      this.geo := geo;
    }

    /** `AddStop`: `emplace`, so the first stop registered under a name stays. */
    method AddStop(stop: Stop)
      modifies this
      ensures stopByName == Emplace(old(stopByName), stop.name, stop)
      ensures busByName == old(busByName)
    {
      if stop.name !in stopByName {
        stopByName := stopByName[stop.name := stop];
      }
    }

    /** `AddBus`: the last bus registered under a name replaces the earlier one. */
    method AddBus(bus: Bus)
      modifies this
      ensures busByName == old(busByName)[bus.name := bus]
      ensures stopByName == old(stopByName)
    {
      busByName := busByName[bus.name := bus];
    }

    /** `ProcessUpdateRequests`: each request is applied in turn. */
    method ProcessUpdates(requests: seq<UpdateRequest>)
      modifies this
      ensures stopByName == Registered(old(stopByName), requests)
      ensures busByName == Assigned(old(busByName), requests)
    {
      for i := 0 to |requests|
        invariant stopByName == Registered(old(stopByName), requests[..i])
        invariant busByName == Assigned(old(busByName), requests[..i])
      {
        assert requests[..i + 1][..i] == requests[..i];
        match requests[i]
        case StopUpdate(stop) => AddStop(stop);
        case BusUpdate(bus) => AddBus(bus);
      }
      assert requests[..|requests|] == requests;
    }

    /**
     * `BusReadRequest::Process`. The route loop runs to `stops.size() - 1`,
     * so a registered bus must have at least one stop; a leg whose stop is
     * not registered makes `at` throw.
     */
    method ProcessBusRead(name: string) returns (r: Result<BusResponse, Failure>)
      requires name in busByName ==> |busByName[name].stops| > 0
      ensures name !in busByName ==> r == Ok(NotFound(name))
      ensures name in busByName ==>
        var stops := busByName[name].stops;
        (r.Err? <==> |stops| > 1 && exists s :: s in stops && s !in stopByName) &&
        (r.Ok? ==>
          (LegsKnown(stopByName, stops, |stops| - 1) &&
           r == Ok(Found(name, |stops|, |Names(stops)|, GeoLength(stopByName, geo, stops, |stops| - 1)))))
    {
      if name !in busByName {
        return Ok(NotFound(name));
      }
      var bus := busByName[name];
      var stops := bus.stops;
      var unique := GetUniqueStopsNumber(bus);
      var length := 0.0;
      var i := 0;
      while i < |stops| - 1
        invariant 0 <= i <= |stops| - 1
        invariant LegsKnown(stopByName, stops, i)
        invariant length == GeoLength(stopByName, geo, stops, i)
      {
        if stops[i] !in stopByName || stops[i + 1] !in stopByName {
          return Err(OutOfRange);
        }
        length := length + GeoDistance(stopByName, geo, stops[i], stops[i + 1]);
        i := i + 1;
      }
      if |stops| > 1 {
        forall s | s in stops
          ensures s in stopByName
        {
          var k :| 0 <= k < |stops| && stops[k] == s;
        }
      }
      r := Ok(Found(name, |stops|, unique, length));
    }
  }

  /** The stops registered by a sequence of update requests. */
  function Registered(stopByName: map<string, Stop>, requests: seq<UpdateRequest>): map<string, Stop>
  {
    if |requests| == 0 then stopByName
    else
      var m := Registered(stopByName, requests[..|requests| - 1]);
      match requests[|requests| - 1]
      case StopUpdate(stop) => Emplace(m, stop.name, stop)
      case BusUpdate(_) => m
  }

  /** The buses registered by a sequence of update requests. */
  function Assigned(busByName: map<string, Bus>, requests: seq<UpdateRequest>): map<string, Bus>
  {
    if |requests| == 0 then busByName
    else
      var m := Assigned(busByName, requests[..|requests| - 1]);
      match requests[|requests| - 1]
      case StopUpdate(_) => m
      case BusUpdate(bus) => m[bus.name := bus]
  }

  function StopsOf(requests: seq<UpdateRequest>): (r: seq<Stop>)
    ensures |r| <= |requests|
  {
    if |requests| == 0 then []
    else
      var init := StopsOf(requests[..|requests| - 1]);
      match requests[|requests| - 1]
      case StopUpdate(stop) => init + [stop]
      case BusUpdate(_) => init
  }

  function BusesOf(requests: seq<UpdateRequest>): (r: seq<Bus>)
    ensures |r| <= |requests|
  {
    if |requests| == 0 then []
    else
      var init := BusesOf(requests[..|requests| - 1]);
      match requests[|requests| - 1]
      case StopUpdate(_) => init
      case BusUpdate(bus) => init + [bus]
  }

  /**
   * Starting from an empty guide, the stops are those of the stop requests
   * with the first one per name kept, and the buses those of the bus
   * requests with the last one per name kept.
   */
  lemma {:induction false} UpdatesFromEmpty(requests: seq<UpdateRequest>)
    ensures Registered(map[], requests) == StopsEmplaced(StopsOf(requests))
    ensures Assigned(map[], requests) == BusesAssigned(BusesOf(requests))
  {
    if |requests| > 0 {
      var init := requests[..|requests| - 1];
      UpdatesFromEmpty(init);
      match requests[|requests| - 1]
      case StopUpdate(stop) =>
        assert (StopsOf(init) + [stop])[..|StopsOf(init)|] == StopsOf(init);
      case BusUpdate(bus) =>
        assert (BusesOf(init) + [bus])[..|BusesOf(init)|] == BusesOf(init);
    }
  }
}
