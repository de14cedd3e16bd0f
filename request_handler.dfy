/**
 * The RequestHandler facade of src/request_handler.cpp: it answers stat
 * requests from the catalogue, picks the stops and buses the map renderer
 * draws, and owns the transport router once it has been initialised.
 *
 * The catalogue of this revision (GetAllStops, GetAllBuses, GetStopStat,
 * GetBusInfo) is not part of this model. The handler sees it as a `Db`: the
 * stops and buses in catalogue order, where a pointer to a stop or a bus is
 * its index, and the catalogue's answers as functions. The map renderer is
 * not part of this model either: RenderMap returns the two lists it would
 * hand to it.
 */
module RequestHandler {
  import opened Wrappers
  import Strings
  import Router
  import RouterWeight
  import Sequences

  /** domain::BusStat. */
  datatype BusStat = BusStat(geoDistance: real, stopCount: int, uniqStops: int, roadDistance: int)

  /**
   * The catalogue as the handler reads it: the network of stops and buses,
   * the buses through a named stop as a set of bus indices (None for an
   * unknown stop), and the statistics of a named bus.
   */
  datatype Db = Db(net: Router.Network, stopStat: string -> Option<set<nat>>, busStat: string -> Option<BusStat>)

  /** The arguments of renderer_.RenderMap: the buses, then the stops. */
  datatype MapInput = MapInput(buses: seq<nat>, stops: seq<nat>)

  // ---------------------------------------------------------------------
  // Selecting what the map shows

  /**
   * The first loop of RenderMap over the first n stops: the indices of the
   * stops some bus goes through. Dereferencing the nullopt that GetStopStat
   * would return for a stop it does not know is undefined behaviour.
   */
  function ValidStops(db: Db, n: nat): Result<seq<nat>, Exception>
    requires n <= |db.net.stops|
  {
    if n == 0 then Ok([])
    else
      var init := ValidStops(db, n - 1);
      var table := db.stopStat(db.net.stops[n - 1]);
      if init.Err? then init
      else if table.None? then Err(UndefinedBehaviour)
      else if table.value != {} then Ok(init.value + [n - 1])
      else init
  }

  /** Whether the catalogue knows the stop at index k. */
  predicate KnownStop(db: Db, k: nat)
    requires k < |db.net.stops|
  {
    db.stopStat(db.net.stops[k]).Some?
  }

  /** Whether some bus goes through the stop at index k. */
  predicate StopHasBuses(db: Db, k: nat)
    requires k < |db.net.stops|
  {
    db.stopStat(db.net.stops[k]).Some? && db.stopStat(db.net.stops[k]).value != {}
  }

  /**
   * The selection succeeds exactly when the catalogue knows every stop; it
   * then holds exactly the stops with a non-empty bus set, each once, in
   * catalogue order.
   */
  lemma {:induction false} ValidStopsMeaning(db: Db, n: nat)
    requires n <= |db.net.stops|
    ensures ValidStops(db, n).Ok? <==> forall k :: 0 <= k < n ==> KnownStop(db, k)
    ensures ValidStops(db, n).Err? ==> ValidStops(db, n).error == UndefinedBehaviour
    ensures ValidStops(db, n).Ok? ==> forall k: nat :: k in ValidStops(db, n).value <==> k < n && StopHasBuses(db, k)
    ensures ValidStops(db, n).Ok? ==>
      forall i, j :: 0 <= i < j < |ValidStops(db, n).value| ==> ValidStops(db, n).value[i] < ValidStops(db, n).value[j]
  {
    if n > 0 {
      ValidStopsMeaning(db, n - 1);
      var init := ValidStops(db, n - 1);
      if init.Ok? && KnownStop(db, n - 1) {
        forall k: nat ensures k in ValidStops(db, n).value <==> k < n && StopHasBuses(db, k) {
          if k in init.value {
            assert k < n - 1;
          }
        }
        if StopHasBuses(db, n - 1) {
          var v := init.value + [n - 1];
          forall i, j | 0 <= i < j < |v| ensures v[i] < v[j] {
            if j == |v| - 1 {
              assert v[i] in init.value;
            }
          }
        }
      }
    }
  }

  /** Once a prefix of the stops has hit an unknown stop, the whole selection has. */
  lemma {:induction false} ValidStopsErrorStays(db: Db, k: nat, n: nat)
    requires k <= n <= |db.net.stops| && ValidStops(db, k).Err?
    ensures ValidStops(db, n) == ValidStops(db, k)
    decreases n - k
  {
    if k < n {
      ValidStopsErrorStays(db, k, n - 1);
    }
  }

  /** The second loop of RenderMap over the first n buses: the indices of the buses with at least one stop. */
  function ValidBuses(net: Router.Network, n: nat): seq<nat>
    requires n <= |net.buses|
  {
    if n == 0 then []
    else ValidBuses(net, n - 1) + (if net.buses[n - 1].stops != [] then [n - 1] else [])
  }

  /** Exactly the buses with a non-empty stop list, each once, in catalogue order. */
  lemma {:induction false} ValidBusesMeaning(net: Router.Network, n: nat)
    requires n <= |net.buses|
    ensures forall k: nat :: k in ValidBuses(net, n) <==> k < n && net.buses[k].stops != []
    ensures forall i, j :: 0 <= i < j < |ValidBuses(net, n)| ==> ValidBuses(net, n)[i] < ValidBuses(net, n)[j]
  {
    if n > 0 {
      ValidBusesMeaning(net, n - 1);
      var init := ValidBuses(net, n - 1);
      forall k: nat ensures k in ValidBuses(net, n) <==> k < n && net.buses[k].stops != [] {
        if k in init {
          assert k < n - 1;
        }
      }
      var v := ValidBuses(net, n);
      forall i, j | 0 <= i < j < |v| ensures v[i] < v[j] {
        if j >= |init| {
          assert v[j] == n - 1 && v[i] == init[i];
          assert init[i] in init;
        }
      }
    }
  }

  /** The name of the stop at an index (a pointer's `->name`). */
  function StopName(net: Router.Network): nat -> string {
    (k: nat) => if k < |net.stops| then net.stops[k] else ""
  }

  /** The name of the bus at an index. */
  function BusName(net: Router.Network): nat -> string {
    (k: nat) => if k < |net.buses| then net.buses[k].name else ""
  }

  /** What the renderer is handed: each list sorted by name and a permutation of its selection. */
  predicate IsMapInput(db: Db, input: MapInput)
    requires ValidStops(db, |db.net.stops|).Ok?
  {
    && Strings.SortedBy(input.stops, StopName(db.net))
    && multiset(input.stops) == multiset(ValidStops(db, |db.net.stops|).value)
    && Strings.SortedBy(input.buses, BusName(db.net))
    && multiset(input.buses) == multiset(ValidBuses(db.net, |db.net.buses|))
  }

  /**
   * The renderer gets exactly the stops that some bus goes through and
   * exactly the buses that have stops, each once, sorted by name.
   */
  lemma RenderMapSelection(db: Db, input: MapInput)
    requires ValidStops(db, |db.net.stops|).Ok? && IsMapInput(db, input)
    ensures forall k: nat :: k in input.stops <==> k < |db.net.stops| && StopHasBuses(db, k)
    ensures forall k: nat :: k in input.buses <==> k < |db.net.buses| && db.net.buses[k].stops != []
    ensures |input.stops| == |ValidStops(db, |db.net.stops|).value| && |input.buses| == |ValidBuses(db.net, |db.net.buses|)|
    ensures forall i, j :: 0 <= i < j < |input.stops| ==> input.stops[i] != input.stops[j]
    ensures forall i, j :: 0 <= i < j < |input.buses| ==> input.buses[i] != input.buses[j]
  {
    ValidStopsMeaning(db, |db.net.stops|);
    ValidBusesMeaning(db.net, |db.net.buses|);
    Sequences.PermutationOfIncreasing(input.stops, ValidStops(db, |db.net.stops|).value);
    Sequences.PermutationOfIncreasing(input.buses, ValidBuses(db.net, |db.net.buses|));
  }

  class RequestHandler {
    /** db_, the catalogue the handler reads. */
    const db: Db
    /** router_, empty until RouterInitialization is called. */
    var router: Option<Router.TransportRouter>

    constructor (db: Db)
      ensures this.db == db && router == None
    {
      this.db := db;
      router := None;
    }

    method GetBusStat(name: string) returns (r: Option<BusStat>)
      ensures r == db.busStat(name)
    {
      return db.busStat(name);
    }

    method GetStopStat(name: string) returns (r: Option<set<nat>>)
      ensures r == db.stopStat(name)
    {
      return db.stopStat(name);
    }

    /** The two loops and the two sorts of RenderMap: what it hands the renderer. */
    method RenderMap() returns (r: Result<MapInput, Exception>)
      ensures r.Ok? <==> ValidStops(db, |db.net.stops|).Ok?
      ensures r.Err? ==> r.error == UndefinedBehaviour
      ensures r.Ok? ==> IsMapInput(db, r.value)
    {
      ValidStopsMeaning(db, |db.net.stops|);
      var stops: seq<nat> := [];
      for i := 0 to |db.net.stops|
        invariant ValidStops(db, i) == Ok(stops)
      {
        var table := db.stopStat(db.net.stops[i]);
        if table.None? {
          ValidStopsErrorStays(db, i + 1, |db.net.stops|);
          return Err(UndefinedBehaviour);
        }
        if table.value != {} {
          stops := stops + [i];
        }
      }
      var buses: seq<nat> := [];
      for i := 0 to |db.net.buses|
        invariant buses == ValidBuses(db.net, i)
      {
        if db.net.buses[i].stops != [] {
          buses := buses + [i];
        }
      }
      stops := Strings.SortBy(stops, StopName(db.net));
      buses := Strings.SortBy(buses, BusName(db.net));
      return Ok(MapInput(buses, stops));
    }

    /** router_.emplace: a router over the catalogue replaces any earlier one. */
    method RouterInitialization(settings: Router.RoutingSettings)
      requires settings.velocity != 0.0 && Router.WellFormed(db.net)
      modifies this
      ensures router.Some? && fresh(router.value) && router.value.Valid()
      ensures router.value.net == db.net && router.value.settings == settings
    {
      var r := new Router.TransportRouter(db.net, settings);
      router := Some(r);
    }

    /**
     * BuildRoute: logic_error before RouterInitialization, and otherwise the
     * router's answer, with the shortest-path search as a parameter.
     */
    method BuildRoute(from: string, to: string, search: (nat, nat) -> Option<Router.RouteInfo>)
      returns (r: Result<Option<Router.RouteResponse>, Exception>)
      requires router.Some? ==> router.value.Valid() && Router.IsShortestPathSearch(router.value.graph.edges, search)
      ensures router.None? ==> r == Err(LogicError)
      ensures router.Some? ==> (r.Err? <==> from !in router.value.net.stops || to !in router.value.net.stops)
      ensures router.Some? && r.Err? ==> r.error == OutOfRange
      ensures router.Some? ==> (r == Ok(None) <==>
        from in router.value.net.stops && to in router.value.net.stops
        && !Router.Reachable(router.value.graph.edges,
          Router.FindStop(router.value.net.stops, from).value, Router.FindStop(router.value.net.stops, to).value))
      ensures router.Some? && r.Ok? && r.value.Some? ==>
        var stops := router.value.net.stops;
        var info := search(Router.FindStop(stops, from).value, Router.FindStop(stops, to).value).value;
        && r.value.value == Router.RouteResponse(Router.ItemsOf(router.value.graph.edges, info.edges), RouterWeight.Total(info.weight))
        && Router.ItemsTime(r.value.value.items) == r.value.value.totalTime
    {
      if router.None? {
        return Err(LogicError);
      }
      r := router.value.GetRoute(from, to, search);
    }
  }
}
