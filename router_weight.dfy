/**
 * The edge weight of the route graph, as declared in
 * transport-catalogue/transport_router.h: travel minutes, waiting minutes and
 * the number of spans of one ride, with the stop where it starts and the bus
 * it takes. A pointer to a stop or a bus is modelled by its name, and the
 * null pointer by None. Times are exact reals.
 */
module RouterWeight {
  import opened Wrappers

  datatype GraphData = GraphData(
    spansTime: real,
    waitTime: int,
    spanCount: int,
    startStop: Option<string>,
    bus: Option<string>)

  /** The key the comparisons use: spans_time + wait_time. */
  function Total(a: GraphData): real {
    a.spansTime + a.waitTime as real
  }

  /** operator< */
  predicate Less(a: GraphData, b: GraphData) {
    a.spansTime + a.waitTime as real < b.spansTime + b.waitTime as real
  }

  /** operator> */
  predicate Greater(a: GraphData, b: GraphData) {
    a.spansTime + a.waitTime as real > b.spansTime + b.waitTime as real
  }

  /** operator+: componentwise sums, and both pointers null. */
  function Add(a: GraphData, b: GraphData): (r: GraphData)
    ensures r.startStop == None && r.bus == None
    ensures Total(r) == Total(a) + Total(b)
  {
    GraphData(a.spansTime + b.spansTime, a.waitTime + b.waitTime, a.spanCount + b.spanCount, None, None)
  }

  /** The weight of an empty path, GraphData{}. */
  const Zero := GraphData(0.0, 0, 0, None, None)

  /** FACTOR_M_PER_MINUTE: metres per minute at one kilometre per hour. */
  const FactorMPerMinute: real := 1000.0 / 60.0

  lemma FactorConvertsKmPerHour()
    ensures FactorMPerMinute * 60.0 == 1000.0
  {
  }

  lemma LessComparesTotals(a: GraphData, b: GraphData)
    ensures Less(a, b) <==> Total(a) < Total(b)
  {
  }

  lemma GreaterIsConverse(a: GraphData, b: GraphData)
    ensures Greater(a, b) <==> Less(b, a)
  {
  }

  /** operator< is a strict weak order: irreflexive, transitive, and incomparability means equal totals. */
  lemma LessIsStrictWeakOrder(a: GraphData, b: GraphData, c: GraphData)
    ensures !Less(a, a)
    ensures Less(a, b) && Less(b, c) ==> Less(a, c)
    ensures !Less(a, b) && !Less(b, a) <==> Total(a) == Total(b)
  {
  }

  lemma AddIsComponentwise(a: GraphData, b: GraphData)
    ensures var r := Add(a, b);
      && r.spansTime == a.spansTime + b.spansTime
      && r.waitTime == a.waitTime + b.waitTime
      && r.spanCount == a.spanCount + b.spanCount
  {
  }

  /** Because both pointers are nulled, + is associative and commutative on whole values. */
  lemma AddAssociativeCommutative(a: GraphData, b: GraphData, c: GraphData)
    ensures Add(Add(a, b), c) == Add(a, Add(b, c))
    ensures Add(a, b) == Add(b, a)
  {
  }

  /** Zero is neutral up to the pointers, which + always nulls. */
  lemma AddZero(a: GraphData)
    ensures Add(Zero, a) == a.(startStop := None, bus := None)
  {
  }

  /** Adding the same weight keeps the order, as a shortest-path search relies on. */
  lemma AddMonotone(a: GraphData, b: GraphData, c: GraphData)
    ensures Less(a, b) <==> Less(Add(a, c), Add(b, c))
  {
  }
}
