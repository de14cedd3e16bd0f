/**
 * The JsonReader of transport-catalogue/json_reader.cpp. It fills the
 * catalogue from "base_requests" through its RequestHandler (AddBus now takes
 * the is_roundtrip flag and the catalogue expands the route itself), answers
 * "stat_requests" of types Stop, Bus and Map, and reads colours and points
 * of the "render_settings".
 *
 * As in module JsonReaderHeader, the document is given already loaded, the
 * handler is the call log of module JsonRequests and the catalogue's answers
 * (including the rendered SVG map) are a `Db`; json::Print is not modelled.
 */
module JsonReaderSource {
  import opened Wrappers
  import opened Json
  import opened JsonRequests

  // ---------------------------------------------------------------------
  // Colours and points of the render settings

  /** uint8_t. */
  type Byte = b: int | 0 <= b < 256

  /** static_cast<uint8_t>(int): the value reduced modulo 256, so 256 becomes 0 and -1 becomes 255. */
  function ToByte(v: int): (r: Byte)
    ensures (v - r) % 256 == 0
    ensures 0 <= v < 256 ==> r == v
  {
    v % 256
  }

  /** domain::dto::Color, the variant of std::monostate, a colour name, Rgb and Rgba. */
  datatype Color =
    | NoColor
    | Named(name: string)
    | Rgb(red: Byte, green: Byte, blue: Byte)
    | Rgba(red: Byte, green: Byte, blue: Byte, opacity: real)

  /** domain::dto::Point. */
  datatype Point = Point(x: real, y: real)

  /** The first three elements read with AsInt and cast to uint8_t, in order. */
  function Channels(items: seq<Node>): Result<(Byte, Byte, Byte), Exception>
    requires |items| >= 3
  {
    var red := AsInt(items[0]);
    if red.Err? then Err(red.error)
    else
      var green := AsInt(items[1]);
      if green.Err? then Err(green.error)
      else
        var blue := AsInt(items[2]);
        if blue.Err? then Err(blue.error)
        else Ok((ToByte(red.value), ToByte(green.value), ToByte(blue.value)))
  }

  /** ParseColor: a string is a colour name; otherwise the node must be an array of 0, 3 or 4 elements. */
  function ParseColor(n: Node): Result<Color, Exception> {
    if n.String? then Ok(Named(n.stringValue))
    else if !n.Array? then Err(LogicError)
    else if n.items == [] then Ok(NoColor)
    else if |n.items| == 3 then
      var c := Channels(n.items);
      if c.Err? then Err(c.error) else Ok(Rgb(c.value.0, c.value.1, c.value.2))
    else if |n.items| == 4 then
      var c := Channels(n.items);
      if c.Err? then Err(c.error)
      else
        var opacity := AsDouble(n.items[3]);
        if opacity.Err? then Err(opacity.error) else Ok(Rgba(c.value.0, c.value.1, c.value.2, opacity.value))
    else Err(RuntimeError)
  }

  /** Whether the element at i is a JSON integer. */
  predicate IntAt(items: seq<Node>, i: nat)
    requires i < |items|
  {
    items[i].Int?
  }

  /**
   * How ParseColor classifies its input: a string stays a string, an empty
   * array is the empty colour, three integers are Rgb and three integers and
   * a number are Rgba, each integer reduced to a byte; any other array length
   * throws runtime_error, and any other node or element type logic_error.
   */
  lemma ParseColorCases(n: Node)
    ensures n.String? ==> ParseColor(n) == Ok(Named(n.stringValue))
    ensures !n.String? && !n.Array? ==> ParseColor(n) == Err(LogicError)
    ensures n.Array? && n.items == [] ==> ParseColor(n) == Ok(NoColor)
    ensures n.Array? && |n.items| == 3 ==>
      (ParseColor(n).Ok? <==> IntAt(n.items, 0) && IntAt(n.items, 1) && IntAt(n.items, 2))
    ensures n.Array? && |n.items| == 4 ==>
      (ParseColor(n).Ok? <==> IntAt(n.items, 0) && IntAt(n.items, 1) && IntAt(n.items, 2) && IsDouble(n.items[3]))
    ensures n.Array? && 3 <= |n.items| <= 4 && ParseColor(n).Ok? ==>
      var v := ParseColor(n).value;
      && (|n.items| == 3 ==> v.Rgb?)
      && (|n.items| == 4 ==> v.Rgba? && v.opacity == AsDouble(n.items[3]).value)
      && v.red == ToByte(n.items[0].intValue) && v.green == ToByte(n.items[1].intValue)
      && v.blue == ToByte(n.items[2].intValue)
    ensures n.Array? && 3 <= |n.items| <= 4 && ParseColor(n).Err? ==> ParseColor(n).error == LogicError
    ensures n.Array? && !(|n.items| in {0, 3, 4}) ==> ParseColor(n) == Err(RuntimeError)
  {
  }

  /** The JSON a render_settings colour is written as. */
  function ColorNode(c: Color): Node {
    match c
    case NoColor => Array([])
    case Named(name) => String(name)
    case Rgb(r, g, b) => Array([Int(r), Int(g), Int(b)])
    case Rgba(r, g, b, o) => Array([Int(r), Int(g), Int(b), Double(o)])
  }

  /** Every colour written as JSON is read back as itself. */
  lemma ParseColorRoundTrip(c: Color)
    ensures ParseColor(ColorNode(c)) == Ok(c)
  {
    match c
    case NoColor =>
    case Named(_) =>
    case Rgb(r, g, b) =>
      assert ColorNode(c).items[0] == Int(r);
    case Rgba(r, g, b, o) =>
      assert ColorNode(c).items[3] == Double(o);
  }

  /** CreateColorPalette: an empty palette is invalid_argument; otherwise every colour is parsed, in order. */
  function Palette(items: seq<Node>): Result<seq<Color>, Exception> {
    if items == [] then Err(InvalidArgument) else Collect(items, ParseColor)
  }

  /**
   * The palette has exactly one colour per element, the i-th parsed from the
   * i-th element; it exists exactly when the array is non-empty and every
   * element is a colour, and otherwise the first bad element's exception is
   * thrown.
   */
  lemma PaletteMeaning(items: seq<Node>)
    ensures items == [] ==> Palette(items) == Err(InvalidArgument)
    ensures Palette(items).Ok? <==> items != [] && forall i :: 0 <= i < |items| ==> ParseColor(items[i]).Ok?
    ensures Palette(items).Ok? ==> (|Palette(items).value| == |items|
      && forall i :: 0 <= i < |items| ==> Palette(items).value[i] == ParseColor(items[i]).value)
    ensures items != [] && Palette(items).Err? ==> exists i :: (0 <= i < |items|
      && ParseColor(items[i]) == Err(Palette(items).error) && forall j :: 0 <= j < i ==> ParseColor(items[j]).Ok?)
  {
    CollectMeaning(items, ParseColor);
  }

  /** A palette written as JSON is read back as itself. */
  lemma PaletteRoundTrip(colors: seq<Color>)
    requires colors != []
    ensures Palette(seq(|colors|, i requires 0 <= i < |colors| => ColorNode(colors[i]))) == Ok(colors)
  {
    var items := seq(|colors|, i requires 0 <= i < |colors| => ColorNode(colors[i]));
    forall i | 0 <= i < |items|
      ensures ParseColor(items[i]) == Ok(colors[i])
    {
      ParseColorRoundTrip(colors[i]);
    }
    PaletteMeaning(items);
    assert Palette(items).value == colors;
  }

  /** The loop of CreateColorPalette, after the emptiness check. */
  method CreateColorPalette(items: seq<Node>) returns (r: Result<seq<Color>, Exception>)
    ensures r == Palette(items)
  {
    if |items| == 0 {
      return Err(InvalidArgument);
    }
    var result: seq<Color> := [];
    for i := 0 to |items|
      invariant Collect(items[..i], ParseColor) == Ok(result)
    {
      assert items[..i + 1][..i] == items[..i];
      var color := ParseColor(items[i]);
      if color.Err? {
        CollectPrefixError(items, ParseColor, i + 1);
        return Err(color.error);
      }
      result := result + [color.value];
    }
    assert items[..|items|] == items;
    return Ok(result);
  }

  /** ParsePoint: exactly two numbers, x then y; any other length throws runtime_error. */
  function ParsePoint(items: seq<Node>): (r: Result<Point, Exception>)
    ensures r.Ok? <==> |items| == 2 && IsDouble(items[0]) && IsDouble(items[1])
    ensures r.Ok? ==> r.value == Point(AsDouble(items[0]).value, AsDouble(items[1]).value)
    ensures |items| != 2 ==> r == Err(RuntimeError)
    ensures |items| == 2 && r.Err? ==> r.error == LogicError
  {
    if |items| == 2 then
      var x := AsDouble(items[0]);
      if x.Err? then Err(x.error)
      else
        var y := AsDouble(items[1]);
        if y.Err? then Err(y.error) else Ok(Point(x.value, y.value))
    else Err(RuntimeError)
  }

  /** A point written as a JSON pair of doubles is read back as itself. */
  lemma ParsePointRoundTrip(p: Point)
    ensures ParsePoint([Double(p.x), Double(p.y)]) == Ok(p)
  {
  }

  // ---------------------------------------------------------------------
  // Base requests

  /**
   * The AddBus call for one bus request: an empty stop list is added as a
   * roundtrip without reading is_roundtrip; otherwise is_roundtrip is read
   * before the stop names.
   */
  function BusCall(bus: Props): Result<HandlerCall, Exception> {
    var name := Field(bus, "name", AsString);
    if name.Err? then Err(name.error)
    else
      var stops := Field(bus, "stops", AsArray);
      if stops.Err? then Err(stops.error)
      else if stops.value == [] then Ok(AddBusKindCall(name.value, [], true))
      else
        var isRoundtrip := Field(bus, "is_roundtrip", AsBool);
        if isRoundtrip.Err? then Err(isRoundtrip.error)
        else
          var route := Collect(stops.value, AsString);
          if route.Err? then Err(route.error) else Ok(AddBusKindCall(name.value, route.value, isRoundtrip.value))
  }

  function BusOutcome(bus: Props): Outcome<HandlerCall> {
    Single(BusCall(bus))
  }

  /** A bus request with no stops is added as a roundtrip with an empty route, whatever its is_roundtrip says, even when it has none. */
  lemma EmptyBusIsRoundtrip(bus: Props, flag: Option<Node>)
    requires "name" in bus && bus["name"].String? && "stops" in bus && bus["stops"] == Array([])
    ensures var other := if flag.Some? then bus["is_roundtrip" := flag.value] else bus - {"is_roundtrip"};
      BusCall(other) == Ok(AddBusKindCall(bus["name"].stringValue, [], true))
  {
  }

  /**
   * A bus request is accepted exactly when its name is a string, its stops an
   * array, and a non-empty array comes with a boolean is_roundtrip and holds
   * only strings; the route is then the stop names as given, in order, with
   * the flag passed on unexpanded.
   */
  lemma BusCallMeaning(bus: Props)
    requires "name" in bus && bus["name"].String? && "stops" in bus && bus["stops"].Array?
    ensures var stops := bus["stops"].items;
      BusCall(bus).Ok? <==> (stops == [] ||
        ("is_roundtrip" in bus && bus["is_roundtrip"].Bool? && forall i :: 0 <= i < |stops| ==> stops[i].String?))
    ensures var stops := bus["stops"].items;
      BusCall(bus).Ok? && stops != [] ==>
        var call := BusCall(bus).value;
        && call == AddBusKindCall(bus["name"].stringValue, call.route, bus["is_roundtrip"].boolValue)
        && |call.route| == |stops| && forall i :: 0 <= i < |stops| ==> call.route[i] == stops[i].stringValue
  {
    CollectMeaning(bus["stops"].items, AsString);
  }

  /** ParseBaseRequests adds every stop, then every road distance, then every bus. */
  lemma ParseBaseRequestsInOrder(doc: Node)
    ensures var calls := BaseCalls(doc, BusOutcome).calls;
      forall i, j :: 0 <= i < j < |calls| ==> PassOf(calls[i]) <= PassOf(calls[j])
  {
    assert forall bus :: AllOfPass(BusOutcome(bus), 2);
    BaseCallsInOrder(doc, BusOutcome);
  }

  // ---------------------------------------------------------------------
  // Stat requests

  /** The response to a Map request: the rendered SVG document as a string. */
  function MapResponse(id: int, svg: string): Node {
    Dict(map["request_id" := Int(id), "map" := String(svg)])
  }

  /** The answer to one stat request: id and type are read, then the name only for Stop and Bus. */
  function StatAnswer(db: Db, request: Node): Result<Node, Exception> {
    if !request.Dict? then Err(LogicError)
    else
      var id := Field(request.entries, "id", AsInt);
      if id.Err? then Err(id.error)
      else
        var kind := Field(request.entries, "type", AsString);
        if kind.Err? then Err(kind.error)
        else if kind.value == "Stop" || kind.value == "Bus" then
          var name := Field(request.entries, "name", AsString);
          if name.Err? then Err(name.error)
          else if kind.value == "Stop" then Ok(StopResponse(id.value, db.busesByStop(name.value)))
          else Ok(BusResponse(id.value, db.busStat(name.value)))
        else if kind.value == "Map" then Ok(MapResponse(id.value, db.renderedMap))
        else Err(RuntimeError)
  }

  function Answer(db: Db): Node -> Result<Node, Exception> {
    request => StatAnswer(db, request)
  }

  /**
   * A request is answered exactly when it is a dictionary with an integer id
   * and a type of Stop, Bus or Map, and, unless it is a Map, a string name;
   * the answer carries the request's id.
   */
  lemma StatAnswerMeaning(db: Db, request: Node)
    ensures StatAnswer(db, request).Ok? <==>
      && request.Dict? && "id" in request.entries && request.entries["id"].Int?
      && "type" in request.entries && request.entries["type"] in {String("Stop"), String("Bus"), String("Map")}
      && (request.entries["type"] != String("Map") ==> "name" in request.entries && request.entries["name"].String?)
    ensures StatAnswer(db, request).Ok? ==>
      StatAnswer(db, request).value.Dict? && StatAnswer(db, request).value.entries["request_id"] == request.entries["id"]
    ensures StatAnswer(db, request).Ok? && request.entries["type"] == String("Map") ==>
      StatAnswer(db, request).value == MapResponse(request.entries["id"].intValue, db.renderedMap)
  {
  }

  /** A request of any other type throws runtime_error, whether or not it has a name. */
  lemma UnknownStatTypeThrows(db: Db, request: Node)
    requires request.Dict? && "id" in request.entries && request.entries["id"].Int?
    requires "type" in request.entries && request.entries["type"].String?
    requires request.entries["type"] !in {String("Stop"), String("Bus"), String("Map")}
    ensures StatAnswer(db, request) == Err(RuntimeError)
  {
  }

  /**
   * ParseStatRequests outputs one response per request, the i-th answering
   * the i-th request; when one throws, nothing is output and the exception is
   * the first failing request's.
   */
  lemma StatResponsesInOrder(db: Db, doc: Node)
    requires Section(doc, "stat_requests").Ok?
    ensures var requests := doc.entries["stat_requests"].items;
      var out := StatResponses(doc, Answer(db));
      && (out.Ok? <==> forall i :: 0 <= i < |requests| ==> StatAnswer(db, requests[i]).Ok?)
      && (out.Ok? ==> (out.value.Array? && |out.value.items| == |requests|
        && forall i :: 0 <= i < |requests| ==> StatAnswer(db, requests[i]) == Ok(out.value.items[i])))
      && (out.Err? ==> exists i :: (0 <= i < |requests| && StatAnswer(db, requests[i]) == Err(out.error)
        && forall j :: 0 <= j < i ==> StatAnswer(db, requests[j]).Ok?))
  {
    CollectMeaning(doc.entries["stat_requests"].items, Answer(db));
  }

  class JsonReader {
    /** doc_.GetRoot() */
    const doc: Node
    /** What the catalogue and renderer behind handler_ answer. */
    const db: Db
    const handler: Handler

    /** The render settings read by the constructor are not part of this model. */
    constructor (doc: Node, db: Db)
      ensures this.doc == doc && this.db == db && fresh(handler) && handler.calls == []
    {
      this.doc := doc;
      this.db := db;
      handler := new Handler();
    }

    method ParseBaseRequests() returns (error: Option<Exception>)
      modifies handler
      ensures handler.calls == old(handler.calls) + BaseCalls(doc, BusOutcome).calls
      ensures error == BaseCalls(doc, BusOutcome).error
    {
      BaseCallsCases(doc, BusOutcome);
      if !doc.Dict? {
        return Some(LogicError);
      }
      var requests := Field(doc.entries, "base_requests", AsArray);
      if requests.Err? {
        return Some(requests.error);
      }
      var split := SplitRequests(requests.value);
      if split.Err? {
        return Some(split.error);
      }
      var stops := split.value.0;
      var buses := split.value.1;
      ThenAssociative(Each(stops, StopOutcome), Each(stops, StopDistances), Each(buses, BusOutcome));
      error := AddStops(handler, stops);
      if error.None? {
        error := RunLaterPasses(stops, buses);
        ThenCalls(old(handler.calls), Each(stops, StopOutcome), Then(Each(stops, StopDistances), Each(buses, BusOutcome)));
      }
    }

    /** SetRoadDistances, then ParseBuses unless it threw. */
    method RunLaterPasses(stops: seq<Props>, buses: seq<Props>) returns (error: Option<Exception>)
      modifies handler
      ensures var passes := Then(Each(stops, StopDistances), Each(buses, BusOutcome));
        handler.calls == old(handler.calls) + passes.calls && error == passes.error
    {
      error := SetRoadDistances(handler, stops);
      if error.None? {
        error := ParseBuses(buses);
        ThenCalls(old(handler.calls), Each(stops, StopDistances), Each(buses, BusOutcome));
      }
    }

    /** CreateRoute: the stop names in order; the catalogue expands a non-roundtrip route itself. */
    method CreateRoute(stops: seq<Node>) returns (r: Result<seq<string>, Exception>)
      ensures r == Collect(stops, AsString)
    {
      var result: seq<string> := [];
      for i := 0 to |stops|
        invariant Collect(stops[..i], AsString) == Ok(result)
      {
        assert stops[..i + 1][..i] == stops[..i];
        var name := AsString(stops[i]);
        if name.Err? {
          CollectPrefixError(stops, AsString, i + 1);
          return Err(name.error);
        }
        result := result + [name.value];
      }
      assert stops[..|stops|] == stops;
      return Ok(result);
    }

    /** The body of the loop of ParseBuses: the fields of one bus, read in order, and its route. */
    method ReadBus(bus: Props) returns (r: Result<HandlerCall, Exception>)
      ensures r == BusCall(bus)
    {
      var name := Field(bus, "name", AsString);
      if name.Err? {
        return Err(name.error);
      }
      var stops := Field(bus, "stops", AsArray);
      if stops.Err? {
        return Err(stops.error);
      }
      if stops.value == [] {
        return Ok(AddBusKindCall(name.value, [], true));
      }
      var isRoundtrip := Field(bus, "is_roundtrip", AsBool);
      if isRoundtrip.Err? {
        return Err(isRoundtrip.error);
      }
      var route := CreateRoute(stops.value);
      if route.Err? {
        return Err(route.error);
      }
      return Ok(AddBusKindCall(name.value, route.value, isRoundtrip.value));
    }

    method ParseBuses(buses: seq<Props>) returns (error: Option<Exception>)
      modifies handler
      ensures handler.calls == old(handler.calls) + Each(buses, BusOutcome).calls
      ensures error == Each(buses, BusOutcome).error
    {
      for i := 0 to |buses|
        invariant handler.calls == old(handler.calls) + Each(buses[..i], BusOutcome).calls
        invariant Each(buses[..i], BusOutcome).error.None?
      {
        EachStep(buses, BusOutcome, i);
        var call := ReadBus(buses[i]);
        if call.Err? {
          EachPrefixError(buses, BusOutcome, i + 1);
          return Some(call.error);
        }
        handler.Call(call.value);
      }
      assert buses[..|buses|] == buses;
      return None;
    }

    method RenderMap(id: int) returns (response: Node)
      ensures response == MapResponse(id, db.renderedMap)
    {
      var svg := db.renderedMap;
      var entries: Props := map["request_id" := Int(id)];
      entries := entries["map" := String(svg)];
      return Dict(entries);
    }

    method ParseStatRequests() returns (r: Result<Node, Exception>)
      ensures r == StatResponses(doc, Answer(db))
    {
      if !doc.Dict? {
        return Err(LogicError);
      }
      var requests := Field(doc.entries, "stat_requests", AsArray);
      if requests.Err? {
        return Err(requests.error);
      }
      var all := requests.value;
      var responses: seq<Node> := [];
      for i := 0 to |all|
        invariant Collect(all[..i], Answer(db)) == Ok(responses)
      {
        assert all[..i + 1][..i] == all[..i];
        var response := Respond(all[i]);
        if response.Err? {
          CollectPrefixError(all, Answer(db), i + 1);
          return Err(response.error);
        }
        responses := responses + [response.value];
      }
      assert all[..|all|] == all;
      return Ok(Array(responses));
    }

    /** The body of ParseStatRequests' loop: id and type are read, then the type picks the response. */
    method Respond(request: Node) returns (r: Result<Node, Exception>)
      ensures r == StatAnswer(db, request)
    {
      if !request.Dict? {
        return Err(LogicError);
      }
      var id := Field(request.entries, "id", AsInt);
      if id.Err? {
        return Err(id.error);
      }
      var kind := Field(request.entries, "type", AsString);
      if kind.Err? {
        return Err(kind.error);
      }
      if kind.value == "Stop" {
        var name := Field(request.entries, "name", AsString);
        if name.Err? {
          return Err(name.error);
        }
        var response := MakeStopResponse(db, id.value, name.value);
        return Ok(response);
      } else if kind.value == "Bus" {
        var name := Field(request.entries, "name", AsString);
        if name.Err? {
          return Err(name.error);
        }
        var response := MakeBusResponse(db, id.value, name.value);
        return Ok(response);
      } else if kind.value == "Map" {
        var response := RenderMap(id.value);
        return Ok(response);
      }
      return Err(RuntimeError);
    }
  }
}
