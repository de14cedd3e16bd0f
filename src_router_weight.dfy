/**
 * The edge weight of the route graph of src/transport_router.h. Its fields are
 * declared pointers first, and operator+ names them first in its designated
 * initialiser; the operators compute what those of the other revision
 * compute, which the lemma at the end states.
 */
module SrcRouterWeight {
  import opened Wrappers
  import RouterWeight

  datatype GraphData = GraphData(
    startStop: Option<string>,
    bus: Option<string>,
    spansTime: real,
    waitTime: int,
    spanCount: int)

  function Total(a: GraphData): real {
    a.spansTime + a.waitTime as real
  }

  /** operator< */
  predicate Less(a: GraphData, b: GraphData) {
    a.spansTime + a.waitTime as real < b.spansTime + b.waitTime as real
  }

  /** operator> */
  predicate Greater(a: GraphData, b: GraphData) {
    a.spansTime + a.waitTime as real > b.spansTime + b.waitTime as real
  }

  /** operator+: both pointers null, and componentwise sums. */
  function Add(a: GraphData, b: GraphData): (r: GraphData)
    ensures r.startStop == None && r.bus == None
    ensures Total(r) == Total(a) + Total(b)
  {
    GraphData(None, None, a.spansTime + b.spansTime, a.waitTime + b.waitTime, a.spanCount + b.spanCount)
  }

  /** kMetersPerMinuteFactor */
  const MetersPerMinuteFactor: real := 1000.0 / 60.0

  lemma FactorConvertsKmPerHour()
    ensures MetersPerMinuteFactor * 60.0 == 1000.0
  {
  }

  lemma LessComparesTotals(a: GraphData, b: GraphData)
    ensures Less(a, b) <==> Total(a) < Total(b)
  {
  }

  lemma GreaterIsConverse(a: GraphData, b: GraphData)
    ensures Greater(a, b) <==> Less(b, a)
  {
  }

  lemma AddIsComponentwise(a: GraphData, b: GraphData)
    ensures var r := Add(a, b);
      && r.spansTime == a.spansTime + b.spansTime
      && r.waitTime == a.waitTime + b.waitTime
      && r.spanCount == a.spanCount + b.spanCount
  {
  }

  lemma AddAssociativeCommutative(a: GraphData, b: GraphData, c: GraphData)
    ensures Add(Add(a, b), c) == Add(a, Add(b, c))
    ensures Add(a, b) == Add(b, a)
  {
  }

  /** The same weight in the other revision's layout. */
  function AsOther(a: GraphData): RouterWeight.GraphData {
    RouterWeight.GraphData(a.spansTime, a.waitTime, a.spanCount, a.startStop, a.bus)
  }

  /** Both revisions order and add weights alike, and agree on the speed factor. */
  lemma RevisionsAgree(a: GraphData, b: GraphData)
    ensures Less(a, b) <==> RouterWeight.Less(AsOther(a), AsOther(b))
    ensures Greater(a, b) <==> RouterWeight.Greater(AsOther(a), AsOther(b))
    ensures AsOther(Add(a, b)) == RouterWeight.Add(AsOther(a), AsOther(b))
    ensures MetersPerMinuteFactor == RouterWeight.FactorMPerMinute
  {
  }
}
