/**
  The two datasets the county cartogram joins: the county features decoded
  from the U.S. topology, and the rows of the broadband table.
 */
module Counties {
  import opened JsNumbers

  /**
    A decoded geometry feature. Its geometry and its properties are whatever
    the topology decoder produced; the pipeline only reads the id and, after
    the merge, replaces the properties.
   */
  datatype Feature<G, P> = Feature(id: RawValue, geometry: G, properties: P)

  /**
    One row of the broadband table. The two metric cells are held as the
    numbers the unary `+` coercion makes of them.
   */
  datatype BroadbandRow = BroadbandRow(
    id: RawValue,
    name: string,
    state: string,
    availability: JsNumber,
    usage: JsNumber)

  /** The numeric id of a feature, `+county.id`. */
  function NumericId<G, P>(f: Feature<G, P>): JsNumber {
    ToNumber(f.id)
  }

  /** The numeric ids of the broadband rows, in row order. */
  function RowIds(rows: seq<BroadbandRow>): (ids: seq<JsNumber>)
    ensures |ids| == |rows|
    ensures forall k :: 0 <= k < |rows| ==> ids[k] == ToNumber(rows[k].id)
  {
    if |rows| == 0 then [] else [ToNumber(rows[0].id)] + RowIds(rows[1..])
  }

  /** The numeric ids of the features, in feature order. */
  function FeatureIds<G, P>(fs: seq<Feature<G, P>>): (ids: seq<JsNumber>)
    ensures |ids| == |fs|
    ensures forall k :: 0 <= k < |fs| ==> ids[k] == NumericId(fs[k])
  {
    if |fs| == 0 then [] else [NumericId(fs[0])] + FeatureIds(fs[1..])
  }

  /** Some broadband row has a numeric id `===` to `x`. */
  predicate HasRow(rows: seq<BroadbandRow>, x: JsNumber) {
    exists k :: 0 <= k < |rows| && StrictEq(ToNumber(rows[k].id), x)
  }

  /** Row `k` is the first broadband row whose numeric id is `===` to `x`. */
  predicate IsFirstMatch(rows: seq<BroadbandRow>, k: int, x: JsNumber) {
    && 0 <= k < |rows|
    && StrictEq(ToNumber(rows[k].id), x)
    && forall j :: 0 <= j < k ==> !StrictEq(ToNumber(rows[j].id), x)
  }
}
