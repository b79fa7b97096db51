/**
  `generateCountyData`: reconcile, then give every surviving county the
  name, state and two metrics of the first broadband row with the same
  numeric id, found with `Array.prototype.find`.
 */
module Merge {
  import opened JsNumbers
  import opened Sequences
  import opened Counties
  import opened Reconcile

  /** The properties a county carries once merged. */
  datatype CountyProps = CountyProps(name: string, state: string, availability: JsNumber, usage: JsNumber)

  datatype Option<T> = None | Some(value: T)

  datatype Result<T, E> = Success(value: T) | Failure(error: E)

  /**
    A `find` that comes back `undefined` makes the following property read
    (`countyInfo.name`) throw a TypeError; the feature is the one being merged.
   */
  datatype MergeError<G, P> = RowNotFound(county: Feature<G, P>)

  /** `broadband.find(row => +row.id === x)`. */
  function Find(rows: seq<BroadbandRow>, x: JsNumber): (r: Option<BroadbandRow>)
    ensures r.None? <==> !HasRow(rows, x)
    ensures r.Some? ==> exists k :: IsFirstMatch(rows, k, x) && rows[k] == r.value
  {
    var i := IndexOf(RowIds(rows), x);
    RowIdsIndexOf(rows, x);
    if i == -1 then None
    else
      assert IsFirstMatch(rows, i, x);
      Some(rows[i])
  }

  /** The merged properties, taken from a broadband row. */
  function Project(row: BroadbandRow): CountyProps {
    CountyProps(row.name, row.state, row.availability, row.usage)
  }

  /** The callback of the source's `map`: one county merged with its row. */
  function MergeCounty<G, P>(county: Feature<G, P>, rows: seq<BroadbandRow>): (r: Result<Feature<G, CountyProps>, MergeError<G, P>>)
    ensures r.Success? <==> HasRow(rows, NumericId(county))
    ensures r.Failure? ==> r.error == RowNotFound(county)
    ensures r.Success? ==>
              && r.value.id == county.id
              && r.value.geometry == county.geometry
              && exists k :: IsFirstMatch(rows, k, NumericId(county)) && r.value.properties == Project(rows[k])
  {
    match Find(rows, NumericId(county))
    case None => Failure(RowNotFound(county))
    case Some(row) => Success(Feature(county.id, county.geometry, Project(row)))
  }

  /** The merged record `out` is `county` with the properties of its first matching row. */
  ghost predicate MergedFrom<G, P>(out: Feature<G, CountyProps>, county: Feature<G, P>, rows: seq<BroadbandRow>) {
    && out.id == county.id
    && out.geometry == county.geometry
    && exists k :: IsFirstMatch(rows, k, NumericId(county)) && out.properties == Project(rows[k])
  }

  /**
    The source's `map` over the counties. It completes exactly when every
    county has a broadband row, and otherwise stops at the first county that
    has none.
   */
  function MergeAll<G, P>(counties: seq<Feature<G, P>>, rows: seq<BroadbandRow>): (r: Result<seq<Feature<G, CountyProps>>, MergeError<G, P>>)
    ensures r.Success? <==> forall i :: 0 <= i < |counties| ==> HasRow(rows, NumericId(counties[i]))
    ensures r.Success? ==>
              && |r.value| == |counties|
              && forall i :: 0 <= i < |counties| ==> MergedFrom(r.value[i], counties[i], rows)
    ensures r.Failure? ==>
              exists i :: && 0 <= i < |counties|
                          && r.error == RowNotFound(counties[i])
                          && !HasRow(rows, NumericId(counties[i]))
                          && forall j :: 0 <= j < i ==> HasRow(rows, NumericId(counties[j]))
  {
    if |counties| == 0 then Success([])
    else
      match MergeCounty(counties[0], rows)
      case Failure(e) => Failure(e)
      case Success(head) =>
        match MergeAll(counties[1..], rows)
        case Failure(e) =>
          assert forall j :: 1 <= j < |counties| ==> counties[j] == counties[1..][j - 1];
          Failure(e)
        case Success(tail) =>
          assert forall j :: 1 <= j < |counties| ==> counties[j] == counties[1..][j - 1];
          Success([head] + tail)
  }

  /**
    The whole of `generateCountyData`. Because reconciliation has dropped
    every county without a row, the merge never fails: one record per
    reconciled county, in the same order, each carrying its county's id and
    geometry and the properties of the first broadband row with that id.
   */
  function GenerateCountyData<G, P>(features: seq<Feature<G, P>>, broadband: seq<BroadbandRow>): (r: Result<seq<Feature<G, CountyProps>>, MergeError<G, P>>)
    ensures r.Success?
    ensures
      var reconciled := FixDiscrepancies(features, broadband).features;
      && |r.value| == |reconciled|
      && forall i :: 0 <= i < |reconciled| ==> MergedFrom(r.value[i], reconciled[i], broadband)
  {
    var reconciled := FixDiscrepancies(features, broadband);
    assert forall i :: 0 <= i < |reconciled.features| ==> reconciled.features[i] in reconciled.features;
    MergeAll(reconciled.features, reconciled.broadband)
  }
}
