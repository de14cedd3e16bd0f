/**
 * The transit catalogue store of transport-catalogue/transport_catalogue.cpp:
 * stop names with coordinates, bus names with routes, and for every stop the
 * table of buses that serve it.
 *
 * The deques `all_stops_`/`all_buses_` own the names; the hash maps key on
 * views into them. Here the deques are sequences of names and the maps are
 * Dafny maps keyed by the same names. A `BusesTable` is iterated in
 * ascending name order, as a std::set of names is.
 *
 * Every operation is specified by a function on the abstract value `Store`
 * of the catalogue; the lemmas below state what those functions promise.
 */
module Catalogue {
  import Strings

  datatype Coordinates = Coordinates(lat: real, lng: real)

  /** The five containers of a TransportCatalogue. */
  datatype Store = Store(
    allStops: seq<string>,
    allBuses: seq<string>,
    stopsCoords: map<string, Coordinates>,
    stopsInfo: map<string, set<string>>,
    buses: map<string, seq<string>>)

  /** What BusInfo reports (its text is a format of these numbers). */
  datatype BusStat = BusNotFound | Stats(totalStops: nat, uniqueStops: nat, length: real)

  /** The three outcomes of StopInfo. */
  datatype StopStat = StopNotFound | NoBuses | Buses(names: seq<string>)

  const Placeholder := Coordinates(0.0, 0.0)

  /**
   * The invariant the public operations keep: every name is owned once by its
   * deque, the maps are keyed by exactly the owned names, every stop of a
   * route lists that route's bus, and every listed bus exists.
   */
  ghost predicate Consistent(st: Store) {
    && Strings.NoDuplicates(st.allStops)
    && Strings.NoDuplicates(st.allBuses)
    && (forall n :: n in st.stopsCoords <==> n in st.allStops)
    && (forall n :: n in st.stopsInfo <==> n in st.stopsCoords)
    && (forall b :: b in st.buses <==> b in st.allBuses)
    && (forall b, i :: b in st.buses && 0 <= i < |st.buses[b]| ==>
          st.buses[b][i] in st.stopsInfo && b in st.stopsInfo[st.buses[b][i]])
    && (forall n, b :: n in st.stopsInfo && b in st.stopsInfo[n] ==> b in st.buses)
  }

  const Empty := Store([], [], map[], map[], map[])

  /** AddStop: a new name is appended with its coordinates and an empty table; a known one gets new coordinates. */
  function WithStop(st: Store, name: string, coord: Coordinates): Store {
    if name !in st.stopsCoords then
      st.(allStops := st.allStops + [name],
          stopsCoords := st.stopsCoords[name := coord],
          stopsInfo := if name in st.stopsInfo then st.stopsInfo else st.stopsInfo[name := {}])
    else
      st.(stopsCoords := st.stopsCoords[name := coord])
  }

  /** One step of ProcessRouteStops: an unknown name is registered with placeholder coordinates. */
  function WithRouteStop(st: Store, name: string): Store {
    if name in st.stopsCoords then st
    else st.(allStops := st.allStops + [name], stopsCoords := st.stopsCoords[name := Placeholder])
  }

  /** ProcessRouteStops: the names of a route registered in route order. */
  function WithRouteStops(st: Store, route: seq<string>): Store
    decreases |route|
  {
    if route == [] then st else WithRouteStops(WithRouteStop(st, route[0]), route[1..])
  }

  /** RegisterBusName: a new bus is appended; a known bus has its route replaced. */
  function WithBusName(st: Store, name: string, route: seq<string>): Store {
    if name !in st.buses then st.(allBuses := st.allBuses + [name], buses := st.buses[name := route])
    else st.(buses := st.buses[name := route])
  }

  /** The bus tables after `bus` is inserted into the table of every stop of `stops` (creating missing tables). */
  function WithBusInTables(info: map<string, set<string>>, stops: seq<string>, bus: string): map<string, set<string>>
    decreases |stops|
  {
    if stops == [] then info
    else
      var table := if stops[0] in info then info[stops[0]] else {};
      WithBusInTables(info[stops[0] := table + {bus}], stops[1..], bus)
  }

  /** UpdateStopInfo: `buses_[bus]` (operator[] creates an empty route) and the tables of its stops. */
  function WithStopInfo(st: Store, bus: string): Store {
    var stops := if bus in st.buses then st.buses[bus] else [];
    st.(buses := st.buses[bus := stops], stopsInfo := WithBusInTables(st.stopsInfo, stops, bus))
  }

  /** AddBus: ProcessRouteStops, then RegisterBusName, then UpdateStopInfo. */
  function WithBus(st: Store, name: string, route: seq<string>): Store {
    WithStopInfo(WithBusName(WithRouteStops(st, route), name, route), name)
  }

  /** The distinct names of a route. */
  function StopSet(route: seq<string>): set<string> {
    set n | n in route
  }

  /** The route length: the sum of `distance` over consecutive stops. */
  function RouteLength(coords: map<string, Coordinates>, route: seq<string>,
                       distance: (Coordinates, Coordinates) -> real): real
    requires forall i :: 0 <= i < |route| ==> route[i] in coords
    decreases |route|
  {
    if |route| <= 1 then 0.0
    else RouteLength(coords, route[..|route| - 1], distance)
         + distance(coords[route[|route| - 2]], coords[route[|route| - 1]])
  }

  /** The statistics of a bus of a consistent store. */
  function BusStatOf(st: Store, bus: string, distance: (Coordinates, Coordinates) -> real): (r: BusStat)
    requires Consistent(st)
    ensures r == BusNotFound <==> bus !in st.buses
    ensures bus in st.buses && st.buses[bus] == [] ==> r == Stats(0, 0, 0.0)
    ensures r.Stats? ==> r.uniqueStops <= r.totalStops
    ensures r.Stats? ==> (r.uniqueStops == r.totalStops <==> Strings.NoDuplicates(st.buses[bus]))
  {
    if bus !in st.buses then BusNotFound
    else
      var route := st.buses[bus];
      assert forall i :: 0 <= i < |route| ==> route[i] in st.stopsCoords;
      StopSetSize(route);
      assert route == [] ==> StopSet(route) == {};
      Stats(|route|, |StopSet(route)|, RouteLength(st.stopsCoords, route, distance))
  }

  /** The answer StopInfo formats: unknown stop, no buses, or the table in ascending order. */
  function StopStatOf(info: map<string, set<string>>, name: string): (r: StopStat)
    ensures r == StopNotFound <==> name !in info
    ensures r == NoBuses <==> name in info && info[name] == {}
    ensures r.Buses? ==> Strings.Sorted(r.names) && Strings.NoDuplicates(r.names)
    ensures r.Buses? ==> forall b :: b in r.names <==> b in info[name]
  {
    if name !in info then StopNotFound
    else if info[name] == {} then NoBuses
    else Buses(Strings.SortedKeys(info[name]))
  }

  /** " b1 b2 ...": every name preceded by one space. */
  function Spaced(names: seq<string>): string
    decreases |names|
  {
    if names == [] then "" else Spaced(names[..|names| - 1]) + " " + names[|names| - 1]
  }

  /** The text StopInfo returns for each outcome. */
  function StopText(name: string, stat: StopStat): string {
    match stat
    case StopNotFound => "Stop " + name + ": not found"
    case NoBuses => "Stop " + name + ": no buses"
    case Buses(names) => "Stop " + name + ": buses" + Spaced(names)
  }

  // ---------------------------------------------------------------------
  // Properties of the operations

  lemma {:induction false} StopSetSize(route: seq<string>)
    ensures |StopSet(route)| <= |route|
    ensures |StopSet(route)| == |route| <==> Strings.NoDuplicates(route)
    decreases |route|
  {
    if route != [] {
      var init, last := route[..|route| - 1], route[|route| - 1];
      assert route == init + [last];
      StopSetSize(init);
      assert StopSet(route) == StopSet(init) + {last};
      if last in init {
        assert StopSet(route) == StopSet(init);
        var k :| 0 <= k < |init| && init[k] == last;
        assert route[k] == route[|route| - 1];
      } else {
        assert |StopSet(route)| == |StopSet(init)| + 1;
        NoDuplicatesAppend(init, last);
      }
    }
  }

  /** A name not yet present can be appended without creating a repetition, and only then. */
  lemma NoDuplicatesAppend(s: seq<string>, x: string)
    requires x !in s
    ensures Strings.NoDuplicates(s + [x]) <==> Strings.NoDuplicates(s)
  {
    if Strings.NoDuplicates(s) {
      AppendFresh(s, x);
    }
    if Strings.NoDuplicates(s + [x]) {
      forall i, j | 0 <= i < j < |s| ensures s[i] != s[j] {
        assert (s + [x])[i] == s[i] && (s + [x])[j] == s[j];
      }
    }
  }

  /** One more stop adds the leg from the stop before it. */
  lemma RouteLengthStep(coords: map<string, Coordinates>, route: seq<string>, i: nat,
                        distance: (Coordinates, Coordinates) -> real)
    requires 1 <= i < |route|
    requires forall k :: 0 <= k < |route| ==> route[k] in coords
    ensures RouteLength(coords, route[..i + 1], distance)
      == RouteLength(coords, route[..i], distance) + distance(coords[route[i - 1]], coords[route[i]])
  {
    assert route[..i + 1][..i] == route[..i];
  }

  lemma StopSetStep(route: seq<string>, i: nat)
    requires i < |route|
    ensures StopSet(route[..i + 1]) == StopSet(route[..i]) + {route[i]}
  {
    assert route[..i + 1] == route[..i] + [route[i]];
  }

  lemma EmptyConsistent()
    ensures Consistent(Empty)
  {
  }

  /** AddStop keeps the invariant. */
  lemma WithStopConsistent(st: Store, name: string, coord: Coordinates)
    requires Consistent(st)
    ensures Consistent(WithStop(st, name, coord))
  {
    var r := WithStop(st, name, coord);
    if name !in st.stopsCoords {
      AppendFresh(st.allStops, name);
    }
  }

  /** AddStop with an unseen name appends exactly that name, records its coordinates and creates an empty table. */
  lemma WithStopNew(st: Store, name: string, coord: Coordinates)
    requires Consistent(st) && name !in st.stopsCoords
    ensures var r := WithStop(st, name, coord);
      && r.allStops == st.allStops + [name]
      && r.stopsCoords[name] == coord
      && r.stopsInfo == st.stopsInfo[name := {}]
      && r.buses == st.buses && r.allBuses == st.allBuses
  {
  }

  /** AddStop with a known name changes only that stop's coordinates, so repeating it changes nothing. */
  lemma WithStopKnown(st: Store, name: string, coord: Coordinates)
    requires name in st.stopsCoords
    ensures var r := WithStop(st, name, coord);
      && r.allStops == st.allStops && r.stopsInfo == st.stopsInfo
      && r.buses == st.buses && r.allBuses == st.allBuses
      && r.stopsCoords == st.stopsCoords[name := coord]
    ensures WithStop(WithStop(st, name, coord), name, coord) == WithStop(st, name, coord)
  {
  }

  /** Appending a name not yet present keeps a sequence free of repetitions. */
  lemma AppendFresh(s: seq<string>, x: string)
    requires Strings.NoDuplicates(s) && x !in s
    ensures Strings.NoDuplicates(s + [x])
  {
    forall i, j | 0 <= i < j < |s| + 1 ensures (s + [x])[i] != (s + [x])[j] {
      if j == |s| { assert (s + [x])[i] in s; }
    }
  }

  /**
   * ProcessRouteStops registers exactly the unknown names of the route, in
   * route order and once each, and touches nothing but the stop list and the
   * coordinates.
   */
  lemma {:induction false} WithRouteStopsNames(st: Store, route: seq<string>)
    requires Strings.NoDuplicates(st.allStops)
    requires forall n :: n in st.stopsCoords <==> n in st.allStops
    ensures var r := WithRouteStops(st, route);
      && r.allStops == st.allStops + NewNames(st.allStops, route)
      && Strings.NoDuplicates(r.allStops)
      && (forall n :: n in r.stopsCoords <==> n in r.allStops)
      && (forall n :: n in r.stopsCoords <==> n in st.stopsCoords || n in route)
      && r.allBuses == st.allBuses && r.buses == st.buses && r.stopsInfo == st.stopsInfo
  {
    WithRouteStopsAppends(st, route);
    WithRouteStopsKeeps(st, route);
  }

  /** ProcessRouteStops keeps the stop list free of repetitions and in step with the coordinates. */
  lemma {:induction false} WithRouteStopsKeeps(st: Store, route: seq<string>)
    requires Strings.NoDuplicates(st.allStops)
    requires forall n :: n in st.stopsCoords <==> n in st.allStops
    ensures var r := WithRouteStops(st, route);
      && Strings.NoDuplicates(r.allStops)
      && (forall n :: n in r.stopsCoords <==> n in r.allStops)
      && (forall n :: n in r.stopsCoords <==> n in st.stopsCoords || n in route)
      && r.allBuses == st.allBuses && r.buses == st.buses && r.stopsInfo == st.stopsInfo
    decreases |route|
  {
    if route != [] {
      WithRouteStopNames(st, route[0]);
      WithRouteStopsKeeps(WithRouteStop(st, route[0]), route[1..]);
      assert route == [route[0]] + route[1..];
    }
  }

  /** The stop list after ProcessRouteStops: the old list followed by the route's new names. */
  lemma {:induction false} WithRouteStopsAppends(st: Store, route: seq<string>)
    requires forall n :: n in st.stopsCoords <==> n in st.allStops
    ensures WithRouteStops(st, route).allStops == st.allStops + NewNames(st.allStops, route)
    decreases |route|
  {
    if route != [] {
      var x, rest := route[0], route[1..];
      var st1 := WithRouteStop(st, x);
      assert route == [x] + rest;
      assert st1.allStops == st.allStops + (if x in st.allStops then [] else [x]);
      WithRouteStopsAppends(st1, rest);
      NewNamesCons(st.allStops, x, rest);
      if x in st.allStops {
        NewNamesKnown(st.allStops, x, rest);
        assert st1.allStops == st.allStops;
      } else {
        assert st1.allStops == st.allStops + [x];
      }
    }
  }

  /**
   * The names of a route that are neither among the known names nor earlier
   * in the route, in route order.
   */
  function NewNames(known: seq<string>, route: seq<string>): seq<string>
    decreases |route|
  {
    if route == [] then []
    else
      var init, last := route[..|route| - 1], route[|route| - 1];
      NewNames(known, init) + (if last in known || last in init then [] else [last])
  }

  /** Looking at the first name of the route first: it is new when unknown, and is known afterwards. */
  lemma {:induction false} NewNamesCons(known: seq<string>, x: string, rest: seq<string>)
    ensures NewNames(known, [x] + rest) == (if x in known then [] else [x]) + NewNames(known + [x], rest)
    decreases |rest|
  {
    if rest == [] {
      assert [x] + rest == [x];
      assert [x][..0] == [];
    } else {
      var init, last := rest[..|rest| - 1], rest[|rest| - 1];
      NewNamesCons(known, x, init);
      assert ([x] + rest)[..|rest|] == [x] + init;
      assert (last in known || last in [x] + init) == (last in known + [x] || last in init);
    }
  }

  /** Adding a name that is already known changes nothing. */
  lemma {:induction false} NewNamesKnown(known: seq<string>, x: string, route: seq<string>)
    requires x in known
    ensures NewNames(known + [x], route) == NewNames(known, route)
    decreases |route|
  {
    if route != [] {
      NewNamesKnown(known, x, route[..|route| - 1]);
      var last := route[|route| - 1];
      assert (last in known + [x]) == (last in known);
    }
  }

  /** One name of the route: registered when it is new, and nothing else changes. */
  lemma WithRouteStopNames(st: Store, name: string)
    requires Strings.NoDuplicates(st.allStops)
    requires forall n :: n in st.stopsCoords <==> n in st.allStops
    ensures var r := WithRouteStop(st, name);
      && Strings.NoDuplicates(r.allStops)
      && st.allStops <= r.allStops
      && (forall n :: n in r.stopsCoords <==> n in r.allStops)
      && (forall n :: n in r.stopsCoords <==> n in st.stopsCoords || n == name)
      && r.allBuses == st.allBuses && r.buses == st.buses && r.stopsInfo == st.stopsInfo
  {
    if name !in st.stopsCoords {
      AppendFresh(st.allStops, name);
    }
  }

  /** ProcessRouteStops keeps known coordinates and gives every new name the placeholder (0, 0). */
  lemma {:induction false} WithRouteStopsCoordinates(st: Store, route: seq<string>)
    ensures var r := WithRouteStops(st, route);
      && (forall n :: n in st.stopsCoords ==> n in r.stopsCoords && r.stopsCoords[n] == st.stopsCoords[n])
      && (forall n :: n in r.stopsCoords && n !in st.stopsCoords ==> r.stopsCoords[n] == Placeholder)
    decreases |route|
  {
    if route != [] {
      WithRouteStopsCoordinates(WithRouteStop(st, route[0]), route[1..]);
    }
  }

  /** UpdateStopInfo only inserts: a table ends up as it was, plus `bus` exactly for the stops of the route. */
  lemma {:induction false} WithBusInTablesFacts(info: map<string, set<string>>, stops: seq<string>, bus: string)
    ensures var r := WithBusInTables(info, stops, bus);
      && (forall n :: n in r <==> n in info || n in stops)
      && (forall n :: n in r ==>
            r[n] == (if n in info then info[n] else {}) + (if n in stops then {bus} else {}))
    decreases |stops|
  {
    if stops != [] {
      var table := if stops[0] in info then info[stops[0]] else {};
      WithBusInTablesFacts(info[stops[0] := table + {bus}], stops[1..], bus);
      assert forall n :: n in stops <==> n == stops[0] || n in stops[1..] by {
        assert stops == [stops[0]] + stops[1..];
      }
    }
  }

  /** The containers after AddBus, each in terms of the store before it. */
  lemma WithBusShape(st: Store, name: string, route: seq<string>)
    requires Strings.NoDuplicates(st.allStops)
    requires forall n :: n in st.stopsCoords <==> n in st.allStops
    ensures var r := WithBus(st, name, route);
      && r.allStops == WithRouteStops(st, route).allStops
      && r.stopsCoords == WithRouteStops(st, route).stopsCoords
      && r.buses == st.buses[name := route]
      && r.allBuses == (if name in st.buses then st.allBuses else st.allBuses + [name])
      && r.stopsInfo == WithBusInTables(st.stopsInfo, route, name)
  {
    WithRouteStopsNames(st, route);
  }

  /** AddBus keeps the invariant. */
  lemma WithBusConsistent(st: Store, name: string, route: seq<string>)
    requires Consistent(st)
    ensures Consistent(WithBus(st, name, route))
  {
    WithBusNamesConsistent(st, name, route);
    WithBusRoutesListed(st, name, route);
    WithBusTablesKnown(st, name, route);
  }

  /** After AddBus the name lists have no duplicates and match the containers they index. */
  lemma WithBusNamesConsistent(st: Store, name: string, route: seq<string>)
    requires Consistent(st)
    ensures var r := WithBus(st, name, route);
      && Strings.NoDuplicates(r.allStops)
      && Strings.NoDuplicates(r.allBuses)
      && (forall n :: n in r.stopsCoords <==> n in r.allStops)
      && (forall n :: n in r.stopsInfo <==> n in r.stopsCoords)
      && (forall b :: b in r.buses <==> b in r.allBuses)
  {
    var r := WithBus(st, name, route);
    WithBusShape(st, name, route);
    WithRouteStopsNames(st, route);
    WithBusInTablesFacts(st.stopsInfo, route, name);
    if name !in st.buses {
      AppendFresh(st.allBuses, name);
    }
  }

  /** After AddBus every stop of every route has a table that lists the bus. */
  lemma WithBusRoutesListed(st: Store, name: string, route: seq<string>)
    requires Consistent(st)
    ensures var r := WithBus(st, name, route);
      forall b, i :: b in r.buses && 0 <= i < |r.buses[b]| ==>
        r.buses[b][i] in r.stopsInfo && b in r.stopsInfo[r.buses[b][i]]
  {
    var r := WithBus(st, name, route);
    WithBusShape(st, name, route);
    WithBusInTablesFacts(st.stopsInfo, route, name);
    forall b, i | b in r.buses && 0 <= i < |r.buses[b]|
      ensures r.buses[b][i] in r.stopsInfo && b in r.stopsInfo[r.buses[b][i]]
    {
      if b != name {
        assert st.buses[b][i] in st.stopsInfo && b in st.stopsInfo[st.buses[b][i]];
      } else {
        assert route[i] in route;
      }
    }
  }

  /** After AddBus every bus a table lists is a known bus. */
  lemma WithBusTablesKnown(st: Store, name: string, route: seq<string>)
    requires Consistent(st)
    ensures var r := WithBus(st, name, route);
      forall n, b :: n in r.stopsInfo && b in r.stopsInfo[n] ==> b in r.buses
  {
    var r := WithBus(st, name, route);
    WithBusShape(st, name, route);
    WithBusInTablesFacts(st.stopsInfo, route, name);
    forall n, b | n in r.stopsInfo && b in r.stopsInfo[n] ensures b in r.buses {
      if b != name {
        assert n in st.stopsInfo && b in st.stopsInfo[n];
      }
    }
  }

  /** After AddBus the bus is registered once with the given route and every stop of the route lists it. */
  lemma WithBusServes(st: Store, name: string, route: seq<string>)
    requires Consistent(st)
    ensures var r := WithBus(st, name, route);
      && name in r.buses && r.buses[name] == route
      && (forall i :: 0 <= i < |route| ==> route[i] in r.stopsInfo && name in r.stopsInfo[route[i]])
      && (forall n :: n in st.stopsInfo ==> n in r.stopsInfo && st.stopsInfo[n] <= r.stopsInfo[n])
      && (name in st.buses ==> r.allBuses == st.allBuses)
      && (name !in st.buses ==> r.allBuses == st.allBuses + [name])
  {
    WithRouteStopsNames(st, route);
    var s2 := WithBusName(WithRouteStops(st, route), name, route);
    WithBusInTablesFacts(s2.stopsInfo, route, name);
    assert forall i :: 0 <= i < |route| ==> route[i] in route;
  }

  /** A stop first seen on a route gets placeholder coordinates; known stops keep theirs. */
  lemma WithBusCoordinates(st: Store, name: string, route: seq<string>)
    requires Consistent(st)
    ensures var r := WithBus(st, name, route);
      && (forall n :: n in r.stopsCoords <==> n in st.stopsCoords || n in route)
      && (forall n :: n in st.stopsCoords ==> r.stopsCoords[n] == st.stopsCoords[n])
      && (forall n :: n in route && n !in st.stopsCoords ==> r.stopsCoords[n] == Placeholder)
  {
    WithRouteStopsNames(st, route);
    WithRouteStopsCoordinates(st, route);
  }

  // ---------------------------------------------------------------------
  // The class

  class TransportCatalogue {
    var allStops: seq<string>
    var allBuses: seq<string>
    var stopsCoords: map<string, Coordinates>
    var stopsInfo: map<string, set<string>>
    var buses: map<string, seq<string>>

    function State(): Store
      reads this
    {
      Store(allStops, allBuses, stopsCoords, stopsInfo, buses)
    }

    ghost predicate Valid()
      reads this
    {
      Consistent(State())
    }

    constructor ()
      ensures Valid() && State() == Empty
    {
      allStops, allBuses := [], [];
      stopsCoords, stopsInfo, buses := map[], map[], map[];
    }

    method AddStop(name: string, coord: Coordinates)
      requires Valid()
      modifies this
      ensures Valid()
      ensures State() == WithStop(old(State()), name, coord)
    {
      WithStopConsistent(State(), name, coord);
      if name !in stopsCoords {
        allStops := allStops + [name];
        stopsCoords := stopsCoords[name := coord];
        if name !in stopsInfo {
          stopsInfo := stopsInfo[name := {}];
        }
      } else {
        stopsCoords := stopsCoords[name := coord];
      }
    }

    method AddBus(name: string, route: seq<string>)
      requires Valid()
      modifies this
      ensures Valid()
      ensures State() == WithBus(old(State()), name, route)
    {
      WithBusConsistent(State(), name, route);
      var finalRoute := ProcessRouteStops(route);
      var bus := RegisterBusName(name, finalRoute);
      UpdateStopInfo(bus);
    }

    method ProcessRouteStops(route: seq<string>) returns (finalRoute: seq<string>)
      modifies this
      ensures finalRoute == route
      ensures State() == WithRouteStops(old(State()), route)
    {
      finalRoute := [];
      var i := 0;
      while i < |route|
        invariant 0 <= i <= |route|
        invariant finalRoute == route[..i]
        invariant WithRouteStops(old(State()), route) == WithRouteStops(State(), route[i..])
      {
        var stop := route[i];
        assert route[i..][1..] == route[i + 1..];
        if stop !in stopsCoords {
          allStops := allStops + [stop];
          stopsCoords := stopsCoords[stop := Placeholder];
        }
        finalRoute := finalRoute + [stop];
        i := i + 1;
      }
    }

    method RegisterBusName(name: string, route: seq<string>) returns (bus: string)
      modifies this
      ensures bus == name
      ensures State() == WithBusName(old(State()), name, route)
    {
      if name !in buses {
        allBuses := allBuses + [name];
        buses := buses[name := route];
        return name;
      }
      buses := buses[name := route];
      return name;
    }

    method UpdateStopInfo(bus: string)
      modifies this
      ensures State() == WithStopInfo(old(State()), bus)
    {
      if bus !in buses {
        buses := buses[bus := []];
      }
      var stops := buses[bus];
      var i := 0;
      while i < |stops|
        invariant 0 <= i <= |stops|
        invariant allStops == old(allStops) && allBuses == old(allBuses)
        invariant stopsCoords == old(stopsCoords) && buses == WithStopInfo(old(State()), bus).buses
        invariant WithBusInTables(stopsInfo, stops[i..], bus) == WithStopInfo(old(State()), bus).stopsInfo
      {
        var stop := stops[i];
        assert stops[i..][1..] == stops[i + 1..];
        var table := if stop in stopsInfo then stopsInfo[stop] else {};
        stopsInfo := stopsInfo[stop := table + {bus}];
        i := i + 1;
      }
    }

    /** BusInfo: stop count, distinct-stop count and length, by one pass over the route. */
    method BusInfo(bus: string, distance: (Coordinates, Coordinates) -> real) returns (r: BusStat)
      requires Valid()
      ensures r == BusStatOf(State(), bus, distance)
    {
      if bus !in buses {
        return BusNotFound;
      }
      var stops := buses[bus];
      assert forall i :: 0 <= i < |stops| ==> stops[i] in stopsCoords;
      var counter, unique, length := RouteStats(stops, stopsCoords, distance);
      return Stats(counter, unique, length);
    }

    /** The loop of BusInfo over one route: stops counted, distinct stops collected, legs summed. */
    static method RouteStats(stops: seq<string>, coords: map<string, Coordinates>,
                             distance: (Coordinates, Coordinates) -> real)
      returns (counter: nat, unique: nat, length: real)
      requires forall i :: 0 <= i < |stops| ==> stops[i] in coords
      ensures counter == |stops| && unique == |StopSet(stops)|
      ensures length == RouteLength(coords, stops, distance)
    {
      counter := 0;
      length := 0.0;
      var uniq: set<string> := {};
      if stops != [] {
        var prev := coords[stops[0]];
        uniq := uniq + {stops[0]};
        counter := counter + 1;
        var i := 1;
        while i < |stops|
          invariant 1 <= i <= |stops|
          invariant counter == i
          invariant prev == coords[stops[i - 1]]
          invariant uniq == StopSet(stops[..i])
          invariant length == RouteLength(coords, stops[..i], distance)
        {
          var cur := coords[stops[i]];
          RouteLengthStep(coords, stops, i, distance);
          StopSetStep(stops, i);
          length := length + distance(prev, cur);
          prev := cur;
          uniq := uniq + {stops[i]};
          counter := counter + 1;
          i := i + 1;
        }
        assert stops[..|stops|] == stops;
      }
      assert stops == [] ==> StopSet(stops) == {};
      unique := |uniq|;
    }

    /** StopInfo: the text for an unknown stop, a stop without buses, or the buses listed in order. */
    method StopInfo(name: string) returns (text: string)
      ensures text == StopText(name, StopStatOf(stopsInfo, name))
    {
      if name !in stopsInfo {
        return "Stop " + name + ": not found";
      }
      if stopsInfo[name] == {} {
        return "Stop " + name + ": no buses";
      }
      var names := Strings.SortedKeys(stopsInfo[name]);
      assert StopStatOf(stopsInfo, name) == Buses(names);
      var head := "Stop " + name + ": buses";
      var spaced := "";
      for i := 0 to |names|
        invariant spaced == Spaced(names[..i])
      {
        assert names[..i + 1][..i] == names[..i];
        spaced := spaced + " " + names[i];
      }
      assert names[..|names|] == names;
      text := head + spaced;
    }
  }
}
