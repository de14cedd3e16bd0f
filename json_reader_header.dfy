/**
 * The header-only JsonReader of transport-catalogue/json_reader.h. It fills
 * the catalogue from "base_requests" through its RequestHandler, and answers
 * "stat_requests" with one JSON dictionary per request.
 *
 * The document is given already loaded (json::Load is modelled in module
 * Json), the handler is the call log of module JsonRequests, and the
 * catalogue's answers are a `Db`. The final json::Print is not modelled: the
 * stat method returns the array it would print.
 */
module JsonReaderHeader {
  import opened Wrappers
  import opened Json
  import opened JsonRequests
  import Sequences

  /**
   * CreateRoute: the stop names, followed for a non-roundtrip bus by the same
   * names backwards without the last one. An empty non-roundtrip list asks
   * reserve() for stops.size() * 2 - 1 == SIZE_MAX entries, which throws
   * std::length_error before any stop is read.
   */
  function Route(stops: seq<Node>, isRoundtrip: bool): Result<seq<string>, Exception> {
    if !isRoundtrip && stops == [] then Err(LengthError)
    else
      var names := Collect(stops, AsString);
      if names.Err? then Err(names.error)
      else if isRoundtrip then Ok(names.value)
      else Ok(Sequences.OutAndBack(names.value))
  }

  /**
   * A route exists exactly when every stop is a string (and, for a
   * non-roundtrip bus, there is one); it starts with the stop names in order,
   * and a non-roundtrip route is a palindrome of 2n-1 stops.
   */
  lemma RouteMeaning(stops: seq<Node>, isRoundtrip: bool)
    ensures var r := Route(stops, isRoundtrip);
      && (!isRoundtrip && stops == [] ==> r == Err(LengthError))
      && (r.Ok? <==> (isRoundtrip || stops != []) && forall i :: 0 <= i < |stops| ==> stops[i].String?)
      && (r.Err? && (isRoundtrip || stops != []) ==> r.error == LogicError)
      && (r.Ok? ==> (|r.value| == (if isRoundtrip then |stops| else 2 * |stops| - 1)
        && forall k :: 0 <= k < |stops| ==> r.value[k] == stops[k].stringValue))
      && (r.Ok? && !isRoundtrip ==> forall k :: 0 <= k < |r.value| ==> r.value[k] == r.value[|r.value| - 1 - k])
  {
    CollectMeaning(stops, AsString);
  }

  /** The stop names in order, followed for a non-roundtrip bus by the way back, are the route. */
  lemma RouteIsResult(stops: seq<Node>, isRoundtrip: bool, result: seq<string>)
    requires (isRoundtrip || stops != []) && forall i :: 0 <= i < |stops| ==> stops[i].String?
    requires |result| == (if isRoundtrip then |stops| else 2 * |stops| - 1)
    requires forall k :: 0 <= k < |result| ==>
      result[k] == stops[if k < |stops| then k else 2 * |stops| - 2 - k].stringValue
    ensures Route(stops, isRoundtrip) == Ok(result)
  {
    RouteMeaning(stops, isRoundtrip);
    var spec := Route(stops, isRoundtrip);
    forall k | 0 <= k < |result|
      ensures result[k] == spec.value[k]
    {
      if k >= |stops| {
        assert spec.value[k] == spec.value[|result| - 1 - k];
      }
    }
    assert result == spec.value;
  }

  /** The AddBus call for one bus request; an empty stop list is added as it is, without reading is_roundtrip. */
  function BusCall(bus: Props): Result<HandlerCall, Exception> {
    var name := Field(bus, "name", AsString);
    if name.Err? then Err(name.error)
    else
      var stops := Field(bus, "stops", AsArray);
      if stops.Err? then Err(stops.error)
      else if stops.value == [] then Ok(AddBusCall(name.value, []))
      else
        var isRoundtrip := Field(bus, "is_roundtrip", AsBool);
        if isRoundtrip.Err? then Err(isRoundtrip.error)
        else
          var route := Route(stops.value, isRoundtrip.value);
          if route.Err? then Err(route.error) else Ok(AddBusCall(name.value, route.value))
  }

  function BusOutcome(bus: Props): Outcome<HandlerCall> {
    Single(BusCall(bus))
  }

  /** A bus with no stops gets an empty route whatever its is_roundtrip says, even when it has none. */
  lemma EmptyBusIgnoresRoundtrip(bus: Props, flag: Node)
    requires "name" in bus && bus["name"].String? && "stops" in bus && bus["stops"] == Array([])
    ensures BusCall(bus) == Ok(AddBusCall(bus["name"].stringValue, []))
    ensures BusCall(bus["is_roundtrip" := flag]) == BusCall(bus)
    ensures BusCall(bus - {"is_roundtrip"}) == BusCall(bus)
  {
  }

  /** A bus with stops gets its names, or its names out and back again: a palindrome of 2n-1 stops. */
  lemma BusRoute(bus: Props)
    requires BusCall(bus).Ok? && bus["stops"].items != []
    ensures forall k :: 0 <= k < |bus["stops"].items| ==> bus["stops"].items[k].String?
    ensures var stops := bus["stops"].items;
      var route := BusCall(bus).value.route;
      && (bus["is_roundtrip"] == Bool(true) ==> route == seq(|stops|, k requires 0 <= k < |stops| => stops[k].stringValue))
      && (bus["is_roundtrip"] == Bool(false) ==> (|route| == 2 * |stops| - 1
          && (forall k :: 0 <= k < |stops| ==> route[k] == stops[k].stringValue)
          && forall k :: 0 <= k < |route| ==> route[k] == route[|route| - 1 - k]))
  {
    RouteMeaning(bus["stops"].items, bus["is_roundtrip"].boolValue);
  }

  /** ParseBaseRequests adds every stop, then every road distance, then every bus. */
  lemma ParseBaseRequestsInOrder(doc: Node)
    ensures var calls := BaseCalls(doc, BusOutcome).calls;
      forall i, j :: 0 <= i < j < |calls| ==> PassOf(calls[i]) <= PassOf(calls[j])
  {
    assert forall bus :: AllOfPass(BusOutcome(bus), 2);
    BaseCallsInOrder(doc, BusOutcome);
  }

  /** The answer to one stat request: id, type and name are all read before the type is looked at. */
  function StatAnswer(db: Db, request: Node): Result<Node, Exception> {
    if !request.Dict? then Err(LogicError)
    else
      var id := Field(request.entries, "id", AsInt);
      if id.Err? then Err(id.error)
      else
        var kind := Field(request.entries, "type", AsString);
        if kind.Err? then Err(kind.error)
        else
          var name := Field(request.entries, "name", AsString);
          if name.Err? then Err(name.error)
          else if kind.value == "Stop" then Ok(StopResponse(id.value, db.busesByStop(name.value)))
          else if kind.value == "Bus" then Ok(BusResponse(id.value, db.busStat(name.value)))
          else Err(RuntimeError)
  }

  function Answer(db: Db): Node -> Result<Node, Exception> {
    request => StatAnswer(db, request)
  }

  /** A well-typed request of type Stop or Bus is answered, and the answer carries the request's id. */
  lemma StatAnswerCarriesId(db: Db, request: Node)
    ensures StatAnswer(db, request).Ok? <==>
      && request.Dict? && "id" in request.entries && request.entries["id"].Int?
      && "type" in request.entries && request.entries["type"] in {String("Stop"), String("Bus")}
      && "name" in request.entries && request.entries["name"].String?
    ensures StatAnswer(db, request).Ok? ==>
      StatAnswer(db, request).value.Dict? && StatAnswer(db, request).value.entries["request_id"] == request.entries["id"]
  {
  }

  /** A well-typed request of any other type throws std::runtime_error. */
  lemma UnknownStatTypeThrows(db: Db, request: Node)
    requires request.Dict? && "id" in request.entries && request.entries["id"].Int?
    requires "type" in request.entries && request.entries["type"].String?
    requires request.entries["type"] !in {String("Stop"), String("Bus")}
    requires "name" in request.entries && request.entries["name"].String?
    ensures StatAnswer(db, request) == Err(RuntimeError)
  {
  }

  /** The name is read before the type is checked: a request without one throws out_of_range, whatever its type. */
  lemma NameReadFirst(db: Db, request: Node)
    requires request.Dict? && "id" in request.entries && request.entries["id"].Int?
    requires "type" in request.entries && request.entries["type"].String?
    requires "name" !in request.entries
    ensures StatAnswer(db, request) == Err(OutOfRange)
  {
  }

  class JsonReader {
    /** doc_.GetRoot() */
    const doc: Node
    /** What the catalogue behind handler_ answers. */
    const db: Db
    const handler: Handler

    constructor (doc: Node, db: Db)
      ensures this.doc == doc && this.db == db && fresh(handler) && handler.calls == []
    {
      this.doc := doc;
      this.db := db;
      handler := new Handler();
    }

    method ParseBaseRequests() returns (error: Option<Exception>)
      modifies handler
      ensures handler.calls == old(handler.calls) + BaseCalls(doc, BusOutcome).calls
      ensures error == BaseCalls(doc, BusOutcome).error
    {
      BaseCallsCases(doc, BusOutcome);
      if !doc.Dict? {
        return Some(LogicError);
      }
      var requests := Field(doc.entries, "base_requests", AsArray);
      if requests.Err? {
        return Some(requests.error);
      }
      var split := SplitRequests(requests.value);
      if split.Err? {
        return Some(split.error);
      }
      ThenAssociative(Each(split.value.0, StopOutcome), Each(split.value.0, StopDistances), Each(split.value.1, BusOutcome));
      error := RunPasses(split.value.0, split.value.1);
    }

    /** The three passes of ParseBaseRequests, each run only if the one before it did not throw. */
    method RunPasses(stops: seq<Props>, buses: seq<Props>) returns (error: Option<Exception>)
      modifies handler
      ensures var passes := Then(Each(stops, StopOutcome), Then(Each(stops, StopDistances), Each(buses, BusOutcome)));
        handler.calls == old(handler.calls) + passes.calls && error == passes.error
    {
      error := AddStops(handler, stops);
      if error.None? {
        error := RunLaterPasses(stops, buses);
        ThenCalls(old(handler.calls), Each(stops, StopOutcome), Then(Each(stops, StopDistances), Each(buses, BusOutcome)));
      }
    }

    /** The second and third passes. */
    method RunLaterPasses(stops: seq<Props>, buses: seq<Props>) returns (error: Option<Exception>)
      modifies handler
      ensures var passes := Then(Each(stops, StopDistances), Each(buses, BusOutcome));
        handler.calls == old(handler.calls) + passes.calls && error == passes.error
    {
      error := SetRoadDistances(handler, stops);
      if error.None? {
        error := AddBuses(buses);
        ThenCalls(old(handler.calls), Each(stops, StopDistances), Each(buses, BusOutcome));
      }
    }

    method CreateRoute(stops: seq<Node>, isRoundtrip: bool) returns (r: Result<seq<string>, Exception>)
      ensures r == Route(stops, isRoundtrip)
    {
      RouteMeaning(stops, isRoundtrip);
      if !isRoundtrip && |stops| == 0 {
        return Err(LengthError);
      }
      var result: seq<string> := [];
      for i := 0 to |stops|
        invariant |result| == i
        invariant forall k :: 0 <= k < i ==> stops[k].String? && result[k] == stops[k].stringValue
      {
        var name := AsString(stops[i]);
        if name.Err? {
          return Err(name.error);
        }
        result := result + [name.value];
      }
      if !isRoundtrip {
        var n := |result|;
        var i := n - 1;
        while i > 0
          invariant 0 <= i <= n - 1
          invariant |result| == 2 * n - 1 - i
          invariant forall k :: 0 <= k < |result| ==> result[k] == stops[if k < n then k else 2 * n - 2 - k].stringValue
        {
          i := i - 1;
          result := result + [result[i]];
        }
      }
      RouteIsResult(stops, isRoundtrip, result);
      return Ok(result);
    }

    /** The body of the loop of AddBuses: the fields of one bus, read in order, and its route. */
    method ReadBus(bus: Props) returns (r: Result<HandlerCall, Exception>)
      ensures r == BusCall(bus)
    {
      var name := Field(bus, "name", AsString);
      if name.Err? {
        return Err(name.error);
      }
      var stops := Field(bus, "stops", AsArray);
      if stops.Err? {
        return Err(stops.error);
      }
      if stops.value == [] {
        return Ok(AddBusCall(name.value, []));
      }
      var isRoundtrip := Field(bus, "is_roundtrip", AsBool);
      if isRoundtrip.Err? {
        return Err(isRoundtrip.error);
      }
      var route := CreateRoute(stops.value, isRoundtrip.value);
      if route.Err? {
        return Err(route.error);
      }
      return Ok(AddBusCall(name.value, route.value));
    }

    method AddBuses(buses: seq<Props>) returns (error: Option<Exception>)
      modifies handler
      ensures handler.calls == old(handler.calls) + Each(buses, BusOutcome).calls
      ensures error == Each(buses, BusOutcome).error
    {
      for i := 0 to |buses|
        invariant handler.calls == old(handler.calls) + Each(buses[..i], BusOutcome).calls
        invariant Each(buses[..i], BusOutcome).error.None?
      {
        EachStep(buses, BusOutcome, i);
        var call := ReadBus(buses[i]);
        if call.Err? {
          EachPrefixError(buses, BusOutcome, i + 1);
          return Some(call.error);
        }
        handler.Call(call.value);
      }
      assert buses[..|buses|] == buses;
      return None;
    }

    method ParseStatRequests() returns (r: Result<Node, Exception>)
      ensures r == StatResponses(doc, Answer(db))
    {
      if !doc.Dict? {
        return Err(LogicError);
      }
      var requests := Field(doc.entries, "stat_requests", AsArray);
      if requests.Err? {
        return Err(requests.error);
      }
      var all := requests.value;
      var responses: seq<Node> := [];
      var failed: Option<Exception> := None;
      var i := 0;
      while i < |all| && failed.None?
        invariant i <= |all|
        invariant Collect(all[..i], Answer(db)) == if failed.None? then Ok(responses) else Err(failed.value)
      {
        assert all[..i + 1][..i] == all[..i];
        var response := Respond(all[i]);
        if response.Err? {
          failed := Some(response.error);
        } else {
          responses := responses + [response.value];
        }
        i := i + 1;
      }
      if failed.Some? {
        CollectPrefixError(all, Answer(db), i);
        return Err(failed.value);
      }
      assert all[..i] == all;
      return Ok(Array(responses));
    }

    /** The body of ParseStatRequests' loop: id, type and name are read, then the type picks the response. */
    method Respond(request: Node) returns (r: Result<Node, Exception>)
      ensures r == StatAnswer(db, request)
    {
      if !request.Dict? {
        return Err(LogicError);
      }
      var id := Field(request.entries, "id", AsInt);
      if id.Err? {
        return Err(id.error);
      }
      var kind := Field(request.entries, "type", AsString);
      if kind.Err? {
        return Err(kind.error);
      }
      var name := Field(request.entries, "name", AsString);
      if name.Err? {
        return Err(name.error);
      }
      if kind.value == "Stop" {
        var response := MakeStopResponse(db, id.value, name.value);
        return Ok(response);
      } else if kind.value == "Bus" {
        var response := MakeBusResponse(db, id.value, name.value);
        return Ok(response);
      }
      return Err(RuntimeError);
    }
  }
}
