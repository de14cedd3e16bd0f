/**
 * What the two JSON readers (transport-catalogue/json_reader.h and
 * transport-catalogue/json_reader.cpp) have in common: reading the
 * properties of one request, splitting "base_requests" into stops and buses,
 * the calls made on the request handler while filling the catalogue, and the
 * stop and bus responses.
 *
 * The request handler forwards to a catalogue that is not part of this
 * model: the calls a reader makes on it are recorded in a `Handler` log, and
 * the catalogue's answers to stat requests are a `Db` parameter.
 */
module JsonRequests {
  import opened Wrappers
  import opened Json
  import Strings
  import Catalogue

  /** json::Dict, the properties of one request. */
  type Props = map<string, Node>

  /** props.at(key), then one of the Node accessors: a missing key is std::out_of_range. */
  function Field<T>(props: Props, key: string, access: Node -> Result<T, Exception>): (r: Result<T, Exception>)
    ensures key !in props ==> r == Err(OutOfRange)
    ensures key in props ==> r == access(props[key])
  {
    if key !in props then Err(OutOfRange) else access(props[key])
  }

  /** doc.GetRoot().AsMap().at(key).AsArray(): one of the request lists of the document. */
  function Section(doc: Node, key: string): (r: Result<seq<Node>, Exception>)
    ensures r.Ok? <==> doc.Dict? && key in doc.entries && doc.entries[key].Array?
    ensures r.Ok? ==> r.value == doc.entries[key].items
    ensures r.Err? ==> r.error == (if doc.Dict? && key !in doc.entries then OutOfRange else LogicError)
  {
    if !doc.Dict? then Err(LogicError) else Field(doc.entries, key, AsArray)
  }

  /** request.AsMap().at("type").AsString(). */
  function RequestType(request: Node): (r: Result<string, Exception>)
    ensures r.Ok? <==> request.Dict? && "type" in request.entries && request.entries["type"].String?
    ensures r.Ok? ==> r.value == request.entries["type"].stringValue
    ensures r.Err? ==> r.error == (if request.Dict? && "type" !in request.entries then OutOfRange else LogicError)
  {
    if !request.Dict? then Err(LogicError) else Field(request.entries, "type", AsString)
  }

  // ---------------------------------------------------------------------
  // SplitRequests

  /** A base request SplitRequests accepts. */
  predicate Known(request: Node) {
    RequestType(request) == Ok("Bus") || RequestType(request) == Ok("Stop")
  }

  /** What SplitRequests throws for a request it does not accept. */
  function SplitError(request: Node): Exception {
    if RequestType(request).Err? then RequestType(request).error else RuntimeError
  }

  /** The properties of the requests of the given type, in request order. */
  function Select(requests: seq<Node>, kind: string): seq<Props>
    decreases |requests|
  {
    if requests == [] then []
    else
      var last := requests[|requests| - 1];
      Select(requests[..|requests| - 1], kind)
      + (if RequestType(last) == Ok(kind) then [last.entries] else [])
  }

  /** The requests of one type: exactly those requests' properties. */
  lemma {:induction false} SelectMembers(requests: seq<Node>, kind: string, p: Props)
    ensures p in Select(requests, kind) <==>
      exists i :: 0 <= i < |requests| && RequestType(requests[i]) == Ok(kind) && requests[i].entries == p
    decreases |requests|
  {
    if requests != [] {
      var init := requests[..|requests| - 1];
      SelectMembers(init, kind, p);
      if exists i :: 0 <= i < |init| && RequestType(init[i]) == Ok(kind) && init[i].entries == p {
        var i :| 0 <= i < |init| && RequestType(init[i]) == Ok(kind) && init[i].entries == p;
        assert requests[i] == init[i];
      }
      if exists i :: 0 <= i < |requests| && RequestType(requests[i]) == Ok(kind) && requests[i].entries == p {
        var i :| 0 <= i < |requests| && RequestType(requests[i]) == Ok(kind) && requests[i].entries == p;
        if i < |init| {
          assert init[i] == requests[i];
        }
      }
    }
  }

  /** When every request is a stop or a bus, the two selections share out all of them. */
  lemma {:induction false} SelectPartition(requests: seq<Node>)
    requires forall i :: 0 <= i < |requests| ==> Known(requests[i])
    ensures |Select(requests, "Stop")| + |Select(requests, "Bus")| == |requests|
    decreases |requests|
  {
    if requests != [] {
      SelectPartition(requests[..|requests| - 1]);
    }
  }

  /** SplitRequests: the stop and bus properties, or the exception of the first request it does not accept. */
  function Split(requests: seq<Node>): Result<(seq<Props>, seq<Props>), Exception>
    decreases |requests|
  {
    if requests == [] then Ok(([], []))
    else
      var init := Split(requests[..|requests| - 1]);
      var last := requests[|requests| - 1];
      if init.Err? then init
      else if !Known(last) then Err(SplitError(last))
      else if RequestType(last) == Ok("Stop") then Ok((init.value.0 + [last.entries], init.value.1))
      else Ok((init.value.0, init.value.1 + [last.entries]))
  }

  /**
   * The split succeeds exactly when every request is a stop or a bus, and
   * then partitions them by type in request order; otherwise the first
   * request that is neither decides the exception.
   */
  lemma {:induction false} SplitMeaning(requests: seq<Node>)
    ensures Split(requests).Ok? <==> forall i :: 0 <= i < |requests| ==> Known(requests[i])
    ensures Split(requests).Ok? ==> Split(requests).value == (Select(requests, "Stop"), Select(requests, "Bus"))
    ensures Split(requests).Err? ==> exists i :: (0 <= i < |requests| && !Known(requests[i])
      && Split(requests).error == SplitError(requests[i]) && forall j :: 0 <= j < i ==> Known(requests[j]))
    decreases |requests|
  {
    if requests != [] {
      var init := requests[..|requests| - 1];
      var last := |requests| - 1;
      SplitMeaning(init);
      assert forall i :: 0 <= i < |init| ==> init[i] == requests[i];
      if Split(init).Err? {
        var i :| 0 <= i < |init| && !Known(init[i]) && Split(init).error == SplitError(init[i])
          && forall j :: 0 <= j < i ==> Known(init[j]);
        assert !Known(requests[i]);
      } else if !Known(requests[last]) {
        assert forall j :: 0 <= j < last ==> Known(requests[j]);
      } else if RequestType(requests[last]) == Ok("Stop") {
        assert RequestType(requests[last]) != Ok("Bus");
        assert Select(requests, "Stop") == Select(init, "Stop") + [requests[last].entries];
        assert Select(requests, "Bus") == Select(init, "Bus") + [] == Select(init, "Bus");
        assert Split(requests) == Ok((Split(init).value.0 + [requests[last].entries], Split(init).value.1));
      } else {
        assert RequestType(requests[last]) != Ok("Stop");
        assert Select(requests, "Stop") == Select(init, "Stop") + [] == Select(init, "Stop");
        assert Select(requests, "Bus") == Select(init, "Bus") + [requests[last].entries];
        assert Split(requests) == Ok((Split(init).value.0, Split(init).value.1 + [requests[last].entries]));
      }
    }
  }

  /** Once a prefix has thrown, the split throws the same. */
  lemma {:induction false} SplitPrefixError(requests: seq<Node>, k: nat)
    requires k <= |requests| && Split(requests[..k]).Err?
    ensures Split(requests) == Split(requests[..k])
    decreases |requests| - k
  {
    if k < |requests| {
      assert requests[..k + 1][..k] == requests[..k];
      SplitPrefixError(requests, k + 1);
    } else {
      assert requests[..k] == requests;
    }
  }

  /** SplitRequests fills the two vectors in one pass over the requests. */
  method SplitRequests(requests: seq<Node>) returns (r: Result<(seq<Props>, seq<Props>), Exception>)
    ensures r == Split(requests)
  {
    var stops: seq<Props> := [];
    var buses: seq<Props> := [];
    for i := 0 to |requests|
      invariant Split(requests[..i]) == Ok((stops, buses))
    {
      var request := requests[i];
      assert requests[..i + 1][..i] == requests[..i];
      if !request.Dict? {
        SplitPrefixError(requests, i + 1);
        return Err(LogicError);
      }
      var kind := Field(request.entries, "type", AsString);
      if kind.Err? {
        SplitPrefixError(requests, i + 1);
        return Err(kind.error);
      }
      if kind.value == "Bus" {
        buses := buses + [request.entries];
      } else if kind.value == "Stop" {
        stops := stops + [request.entries];
      } else {
        SplitPrefixError(requests, i + 1);
        return Err(RuntimeError);
      }
    }
    assert requests[..|requests|] == requests;
    return Ok((stops, buses));
  }

  // ---------------------------------------------------------------------
  // Every element, in order

  /** Applying a throwing accessor to every element, in order: the first exception ends it. */
  function Collect<T>(items: seq<Node>, f: Node -> Result<T, Exception>): Result<seq<T>, Exception>
    decreases |items|
  {
    if items == [] then Ok([])
    else
      var init := Collect(items[..|items| - 1], f);
      if init.Err? then init
      else
        var last := f(items[|items| - 1]);
        if last.Err? then Err(last.error) else Ok(init.value + [last.value])
  }

  /** Collect succeeds exactly when f succeeds on every element; then it holds the results in order, else the first failure. */
  lemma {:induction false} CollectMeaning<T>(items: seq<Node>, f: Node -> Result<T, Exception>)
    ensures Collect(items, f).Ok? <==> forall i :: 0 <= i < |items| ==> f(items[i]).Ok?
    ensures Collect(items, f).Ok? ==>
      |Collect(items, f).value| == |items| && forall i :: 0 <= i < |items| ==> Collect(items, f).value[i] == f(items[i]).value
    ensures Collect(items, f).Err? ==> exists i :: (0 <= i < |items| && f(items[i]) == Err(Collect(items, f).error)
      && forall j :: 0 <= j < i ==> f(items[j]).Ok?)
    decreases |items|
  {
    if items != [] {
      var init := items[..|items| - 1];
      CollectMeaning(init, f);
      assert forall i :: 0 <= i < |init| ==> init[i] == items[i];
    }
  }

  /** Once a prefix has thrown, the later elements are never looked at. */
  lemma {:induction false} CollectPrefixError<T>(items: seq<Node>, f: Node -> Result<T, Exception>, k: nat)
    requires k <= |items| && Collect(items[..k], f).Err?
    ensures Collect(items, f) == Collect(items[..k], f)
    decreases |items| - k
  {
    if k < |items| {
      assert items[..k + 1][..k] == items[..k];
      CollectPrefixError(items, f, k + 1);
    } else {
      assert items[..k] == items;
    }
  }

  // ---------------------------------------------------------------------
  // The request handler

  /** A call the reader makes on its RequestHandler. */
  datatype HandlerCall =
    | AddStopCall(name: string, coordinates: Catalogue.Coordinates)
    | SetRoadDistanceCall(from: string, to: string, distance: int)
    | AddBusCall(name: string, route: seq<string>)
    /** The AddBus of transport-catalogue/json_reader.cpp, which also passes is_roundtrip. */
    | AddBusKindCall(name: string, route: seq<string>, isRoundtrip: bool)

  /** The calls made on the handler so far. */
  class Handler {
    var calls: seq<HandlerCall>

    constructor ()
      ensures calls == []
    {
      calls := [];
    }

    method Call(call: HandlerCall)
      modifies this
      ensures calls == old(calls) + [call]
    {
      calls := calls + [call];
    }
  }

  /** One call, or the exception raised while reading its arguments. */
  function Single(r: Result<HandlerCall, Exception>): Outcome<HandlerCall> {
    if r.Err? then Outcome([], Some(r.error)) else Outcome([r.value], None)
  }

  /** AddStop(name, {latitude, longitude}) for one stop request. */
  function StopCall(stop: Props): Result<HandlerCall, Exception> {
    var name := Field(stop, "name", AsString);
    if name.Err? then Err(name.error)
    else
      var lat := Field(stop, "latitude", AsDouble);
      if lat.Err? then Err(lat.error)
      else
        var lng := Field(stop, "longitude", AsDouble);
        if lng.Err? then Err(lng.error)
        else Ok(AddStopCall(name.value, Catalogue.Coordinates(lat.value, lng.value)))
  }

  function StopOutcome(stop: Props): Outcome<HandlerCall> {
    Single(StopCall(stop))
  }

  /** One entry of a stop's "road_distances", with the stop it is measured from. */
  datatype RoadDistance = RoadDistance(from: string, to: string, distance: Node)

  /** The entries of "road_distances" in the order the std::map iterates them: smallest key first. */
  function DistanceEntries(from: string, m: map<string, Node>): seq<RoadDistance>
    decreases |m|
  {
    if m == map[] then []
    else
      var to := Strings.Minimum(m.Keys);
      [RoadDistance(from, to, m[to])] + DistanceEntries(from, m - {to})
  }

  /** One entry per key, each measured from the given stop, to a key of the map, with that key's value. */
  lemma {:induction false} DistanceEntriesFromMap(from: string, m: map<string, Node>)
    ensures |DistanceEntries(from, m)| == |m|
    ensures forall i :: 0 <= i < |DistanceEntries(from, m)| ==>
      var d := DistanceEntries(from, m)[i];
      d.from == from && d.to in m && d.distance == m[d.to]
    decreases |m|
  {
    if m != map[] {
      var to := Strings.Minimum(m.Keys);
      var rest := m - {to};
      DistanceEntriesFromMap(from, rest);
      var tail := DistanceEntries(from, rest);
      assert DistanceEntries(from, m) == [RoadDistance(from, to, m[to])] + tail;
    }
  }

  /** Every key of the map has an entry. */
  lemma {:induction false} DistanceEntriesCover(from: string, m: map<string, Node>, to: string)
    requires to in m
    ensures exists i :: 0 <= i < |DistanceEntries(from, m)| && DistanceEntries(from, m)[i].to == to
    decreases |m|
  {
    var first := Strings.Minimum(m.Keys);
    var rest := m - {first};
    var r := DistanceEntries(from, m);
    assert r == [RoadDistance(from, first, m[first])] + DistanceEntries(from, rest);
    if to == first {
      assert r[0].to == to;
    } else {
      assert to in rest;
      DistanceEntriesCover(from, rest, to);
      var i :| 0 <= i < |DistanceEntries(from, rest)| && DistanceEntries(from, rest)[i].to == to;
      assert r[i + 1].to == to;
    }
  }

  /** The entries come in strictly ascending key order, as std::map iterates them. */
  lemma {:induction false} DistanceEntriesAscending(from: string, m: map<string, Node>)
    ensures forall i, j :: 0 <= i < j < |DistanceEntries(from, m)| ==>
      Strings.Less(DistanceEntries(from, m)[i].to, DistanceEntries(from, m)[j].to)
    decreases |m|
  {
    if m != map[] {
      var first := Strings.Minimum(m.Keys);
      var rest := m - {first};
      DistanceEntriesAscending(from, rest);
      DistanceEntriesFromMap(from, rest);
      var tail := DistanceEntries(from, rest);
      var r := DistanceEntries(from, m);
      assert r == [RoadDistance(from, first, m[first])] + tail;
      forall i, j | 0 <= i < j < |r| ensures Strings.Less(r[i].to, r[j].to) {
        var later := tail[j - 1].to;
        assert r[j].to == later;
        if i == 0 {
          assert later in rest;
          assert Strings.LessEq(first, later);
        } else {
          assert r[i].to == tail[i - 1].to;
        }
      }
    }
  }

  /** SetRoadDistance(from, to, distance) for one entry. */
  function DistanceCall(d: RoadDistance): Result<HandlerCall, Exception> {
    var distance := AsInt(d.distance);
    if distance.Err? then Err(distance.error) else Ok(SetRoadDistanceCall(d.from, d.to, distance.value))
  }

  function DistanceOutcome(d: RoadDistance): Outcome<HandlerCall> {
    Single(DistanceCall(d))
  }

  /** The road distances of one stop request. */
  function StopDistances(stop: Props): Outcome<HandlerCall> {
    var from := Field(stop, "name", AsString);
    if from.Err? then Outcome([], Some(from.error))
    else
      var distances := Field(stop, "road_distances", AsMap);
      if distances.Err? then Outcome([], Some(distances.error))
      else Each(DistanceEntries(from.value, distances.value), DistanceOutcome)
  }

  /** ParseBaseRequests: the document's base requests split, then the stops, their distances and the buses. */
  function BaseCalls(doc: Node, busOutcome: Props -> Outcome<HandlerCall>): Outcome<HandlerCall> {
    var requests := Section(doc, "base_requests");
    if requests.Err? then Outcome([], Some(requests.error))
    else
      var split := Split(requests.value);
      if split.Err? then Outcome([], Some(split.error))
      else
        var stops := split.value.0;
        Then(Then(Each(stops, StopOutcome), Each(stops, StopDistances)), Each(split.value.1, busOutcome))
  }

  /** The three ways ParseBaseRequests can go: the base requests are missing, one of them is neither a stop nor a bus, or the three passes run. */
  lemma BaseCallsCases(doc: Node, busOutcome: Props -> Outcome<HandlerCall>)
    ensures Section(doc, "base_requests").Err? ==>
      BaseCalls(doc, busOutcome) == Outcome([], Some(Section(doc, "base_requests").error))
    ensures Section(doc, "base_requests").Ok? && Split(Section(doc, "base_requests").value).Err? ==>
      BaseCalls(doc, busOutcome) == Outcome([], Some(Split(Section(doc, "base_requests").value).error))
    ensures Section(doc, "base_requests").Ok? && Split(Section(doc, "base_requests").value).Ok? ==>
      var split := Split(Section(doc, "base_requests").value).value;
      BaseCalls(doc, busOutcome) == Then(Then(Each(split.0, StopOutcome), Each(split.0, StopDistances)), Each(split.1, busOutcome))
  {
  }

  /** The pass a handler call belongs to. */
  function PassOf(call: HandlerCall): nat {
    match call
    case AddStopCall(_, _) => 0
    case SetRoadDistanceCall(_, _, _) => 1
    case AddBusCall(_, _) => 2
    case AddBusKindCall(_, _, _) => 2
  }

  /** Every call of an outcome belongs to the given pass. */
  predicate AllOfPass(o: Outcome<HandlerCall>, pass: nat) {
    forall i :: 0 <= i < |o.calls| ==> PassOf(o.calls[i]) == pass
  }

  /** Calls of one pass, made one item after another, stay in that pass. */
  lemma {:induction false} EachOfPass<T>(items: seq<T>, f: T -> Outcome<HandlerCall>, pass: nat)
    requires forall x :: AllOfPass(f(x), pass)
    ensures AllOfPass(Each(items, f), pass)
    decreases |items|
  {
    if items != [] {
      EachOfPass(items[..|items| - 1], f, pass);
    }
  }

  lemma StopDistancesPass(stop: Props)
    ensures AllOfPass(StopDistances(stop), 1)
  {
    var from := Field(stop, "name", AsString);
    var distances := Field(stop, "road_distances", AsMap);
    if from.Ok? && distances.Ok? {
      EachOfPass(DistanceEntries(from.value, distances.value), DistanceOutcome, 1);
    }
  }

  /**
   * ParseBaseRequests makes every AddStop before any SetRoadDistance, and
   * every SetRoadDistance before any AddBus, whichever way it ends.
   */
  lemma BaseCallsInOrder(doc: Node, busOutcome: Props -> Outcome<HandlerCall>)
    requires forall bus :: AllOfPass(busOutcome(bus), 2)
    ensures var calls := BaseCalls(doc, busOutcome).calls;
      forall i, j :: 0 <= i < j < |calls| ==> PassOf(calls[i]) <= PassOf(calls[j])
  {
    var requests := Section(doc, "base_requests");
    if requests.Ok? && Split(requests.value).Ok? {
      var split := Split(requests.value).value;
      EachOfPass(split.0, StopOutcome, 0);
      forall stop ensures AllOfPass(StopDistances(stop), 1) {
        StopDistancesPass(stop);
      }
      EachOfPass(split.0, StopDistances, 1);
      EachOfPass(split.1, busOutcome, 2);
    }
  }

  // ---------------------------------------------------------------------
  // Stat responses

  /**
   * The catalogue's answer about a bus. `curvature` stands for the double
   * quotient of the road length by the geographic length, which the readers
   * compute; it is taken as given here.
   */
  datatype BusStat = BusStat(roadDistance: int, stopCount: int, uniqueStopCount: int, curvature: real)

  /**
   * The catalogue the stat requests are answered from: the bus names through
   * a stop (None for an unknown stop) in the catalogue's unspecified order,
   * the statistics of a bus (None for an unknown bus), and the SVG text of
   * the map.
   */
  datatype Db = Db(busesByStop: string -> Option<seq<string>>, busStat: string -> Option<BusStat>, renderedMap: string)

  /** The names as JSON strings. */
  function StringNodes(names: seq<string>): (r: seq<Node>)
    ensures |r| == |names| && forall i :: 0 <= i < |names| ==> r[i] == String(names[i])
  {
    if names == [] then [] else StringNodes(names[..|names| - 1]) + [String(names[|names| - 1])]
  }

  /** The "not found" response of an unknown stop or bus. */
  function NotFound(id: int): Node {
    Dict(map["request_id" := Int(id), "error_message" := String("not found")])
  }

  /** The response to a Stop request: "not found", or the bus names sorted ascending. */
  function StopResponse(id: int, table: Option<seq<string>>): Node {
    if table.None? then NotFound(id)
    else Dict(map["request_id" := Int(id), "buses" := Array(StringNodes(Strings.Sort(table.value)))])
  }

  /** A known stop's response lists each of its buses once per entry of the table, in ascending order. */
  lemma StopResponseBuses(id: int, table: Option<seq<string>>)
    requires table.Some?
    ensures var r := StopResponse(id, table);
      && r.Dict? && r.entries.Keys == {"request_id", "buses"} && r.entries["request_id"] == Int(id)
      && exists names :: (r.entries["buses"] == Array(StringNodes(names))
        && Strings.Sorted(names) && multiset(names) == multiset(table.value))
  {
    var names := Strings.Sort(table.value);
    assert StopResponse(id, table).entries["buses"] == Array(StringNodes(names));
  }

  /** The response to a Bus request: "not found", or its four statistics. */
  function BusResponse(id: int, stat: Option<BusStat>): Node {
    if stat.None? then NotFound(id)
    else
      var s := stat.value;
      Dict(map["request_id" := Int(id), "route_length" := Int(s.roadDistance), "stop_count" := Int(s.stopCount),
               "unique_stop_count" := Int(s.uniqueStopCount), "curvature" := Double(s.curvature)])
  }

  /** Every response carries the request's id, and the not-found one nothing but the message. */
  lemma ResponsesCarryId(id: int, db: Db, name: string)
    ensures StopResponse(id, db.busesByStop(name)).entries["request_id"] == Int(id)
    ensures BusResponse(id, db.busStat(name)).entries["request_id"] == Int(id)
    ensures db.busesByStop(name).None? ==>
      StopResponse(id, db.busesByStop(name)).entries.Keys == {"request_id", "error_message"}
    ensures db.busStat(name).None? ==>
      BusResponse(id, db.busStat(name)).entries.Keys == {"request_id", "error_message"}
  {
  }

  /** ParseStatRequests: one answer per stat request, in order, as one array; the first exception ends it. */
  function StatResponses(doc: Node, answer: Node -> Result<Node, Exception>): Result<Node, Exception> {
    var requests := Section(doc, "stat_requests");
    if requests.Err? then Err(requests.error)
    else
      var responses := Collect(requests.value, answer);
      if responses.Err? then Err(responses.error) else Ok(Array(responses.value))
  }

  /** The output has exactly one response per request, the i-th answering the i-th request. */
  lemma OneResponsePerRequest(doc: Node, answer: Node -> Result<Node, Exception>)
    requires StatResponses(doc, answer).Ok?
    ensures var requests := doc.entries["stat_requests"].items;
      var out := StatResponses(doc, answer).value;
      && out.Array? && |out.items| == |requests|
      && forall i :: 0 <= i < |requests| ==> answer(requests[i]) == Ok(out.items[i])
  {
    CollectMeaning(doc.entries["stat_requests"].items, answer);
  }

  /** A failing stat request: nothing is output, and the exception is the first failing request's. */
  lemma FirstFailureWins(doc: Node, answer: Node -> Result<Node, Exception>)
    requires Section(doc, "stat_requests").Ok? && StatResponses(doc, answer).Err?
    ensures var requests := doc.entries["stat_requests"].items;
      exists i :: (0 <= i < |requests| && answer(requests[i]) == Err(StatResponses(doc, answer).error)
        && forall j :: 0 <= j < i ==> answer(requests[j]).Ok?)
  {
    CollectMeaning(doc.entries["stat_requests"].items, answer);
  }

  // ---------------------------------------------------------------------
  // The passes both readers run over the stop requests

  /** AddStops / ParseStops: one AddStop per stop request, in order, until one throws. */
  method AddStops(handler: Handler, stops: seq<Props>) returns (error: Option<Exception>)
    modifies handler
    ensures handler.calls == old(handler.calls) + Each(stops, StopOutcome).calls
    ensures error == Each(stops, StopOutcome).error
  {
    for i := 0 to |stops|
      invariant handler.calls == old(handler.calls) + Each(stops[..i], StopOutcome).calls
      invariant Each(stops[..i], StopOutcome).error.None?
    {
      assert stops[..i + 1][..i] == stops[..i];
      var call := StopCall(stops[i]);
      if call.Err? {
        EachPrefixError(stops, StopOutcome, i + 1);
        return Some(call.error);
      }
      handler.Call(call.value);
    }
    assert stops[..|stops|] == stops;
    return None;
  }

  /** SetRoadDistances: the road distances of every stop request, in order, until one throws. */
  method SetRoadDistances(handler: Handler, stops: seq<Props>) returns (error: Option<Exception>)
    modifies handler
    ensures handler.calls == old(handler.calls) + Each(stops, StopDistances).calls
    ensures error == Each(stops, StopDistances).error
  {
    var i := 0;
    error := None;
    while i < |stops| && error.None?
      invariant i <= |stops|
      invariant handler.calls == old(handler.calls) + Each(stops[..i], StopDistances).calls
      invariant error == Each(stops[..i], StopDistances).error
    {
      EachStep(stops, StopDistances, i);
      error := SetStopDistances(handler, stops[i]);
      i := i + 1;
    }
    if error.Some? {
      EachPrefixError(stops, StopDistances, i);
    } else {
      assert stops[..i] == stops;
    }
  }

  /** The body of SetRoadDistances' outer loop: one SetRoadDistance per entry of one stop's "road_distances", in key order. */
  method SetStopDistances(handler: Handler, stop: Props) returns (error: Option<Exception>)
    modifies handler
    ensures handler.calls == old(handler.calls) + StopDistances(stop).calls
    ensures error == StopDistances(stop).error
  {
    var from := Field(stop, "name", AsString);
    if from.Err? {
      return Some(from.error);
    }
    var distances := Field(stop, "road_distances", AsMap);
    if distances.Err? {
      return Some(distances.error);
    }
    var entries := DistanceEntries(from.value, distances.value);
    for j := 0 to |entries|
      invariant handler.calls == old(handler.calls) + Each(entries[..j], DistanceOutcome).calls
      invariant Each(entries[..j], DistanceOutcome).error.None?
    {
      EachStep(entries, DistanceOutcome, j);
      var call := DistanceCall(entries[j]);
      if call.Err? {
        EachPrefixError(entries, DistanceOutcome, j + 1);
        return Some(call.error);
      }
      handler.Call(call.value);
    }
    assert entries[..|entries|] == entries;
    return None;
  }

  // ---------------------------------------------------------------------
  // Building the stop and bus responses

  /** GetStopStat / MakeStopResponse: the table's bus names copied into a vector, sorted, and wrapped with the id. */
  method MakeStopResponse(db: Db, id: int, name: string) returns (response: Node)
    ensures response == StopResponse(id, db.busesByStop(name))
  {
    var entries: Props := map["request_id" := Int(id)];
    var table := db.busesByStop(name);
    if table.None? {
      entries := entries["error_message" := String("not found")];
      return Dict(entries);
    }
    var buses: seq<string> := [];
    for i := 0 to |table.value|
      invariant buses == table.value[..i]
    {
      buses := buses + [table.value[i]];
    }
    assert buses == table.value;
    buses := Strings.Sort(buses);
    entries := entries["buses" := Array(StringNodes(buses))];
    return Dict(entries);
  }

  /** GetBusStat / MakeBusResponse: "not found", or the four statistics with the id. */
  method MakeBusResponse(db: Db, id: int, name: string) returns (response: Node)
    ensures response == BusResponse(id, db.busStat(name))
  {
    var entries: Props := map["request_id" := Int(id)];
    var stat := db.busStat(name);
    if stat.None? {
      entries := entries["error_message" := String("not found")];
      return Dict(entries);
    }
    entries := entries["route_length" := Int(stat.value.roadDistance)];
    entries := entries["curvature" := Double(stat.value.curvature)];
    entries := entries["stop_count" := Int(stat.value.stopCount)];
    entries := entries["unique_stop_count" := Int(stat.value.uniqueStopCount)];
    return Dict(entries);
  }
}
