/**
  `fixDiscrepancies`: bringing the county features in line with the
  broadband table before they are joined. Territories (ids above 57000, and
  ids that do not coerce to a number) are dropped first, then every remaining
  county without a broadband row. The broadband rows are returned as given.
 */
module Reconcile {
  import opened JsNumbers
  import opened Sequences
  import opened Counties

  /** Ids above this value belong to U.S. territories. */
  const TerritoryCutoff: real := 57000.0

  /** The reconciled pair of datasets. */
  datatype Reconciled<G, P> = Reconciled(features: seq<Feature<G, P>>, broadband: seq<BroadbandRow>)

  /** The first filter's test, `+county.id <= 57000`; false for a NaN id. */
  predicate NotTerritory<G, P>(f: Feature<G, P>) {
    Le(NumericId(f), Num(TerritoryCutoff))
  }

  /**
    Reference definition of the features that survive: a state county
    (numeric id at most 57000) whose id has a broadband row.
   */
  predicate Survives<G, P>(rows: seq<BroadbandRow>, f: Feature<G, P>) {
    NotTerritory(f) && HasRow(rows, NumericId(f))
  }

  /**
    The reconciliation as the source performs it: the territory filter, the
    list of broadband ids, the list of remaining county ids, the ids among
    those that `indexOf` cannot find in the broadband ids, and the filter
    that drops every county whose id `indexOf` finds in that list.
   */
  function FixDiscrepancies<G, P>(features: seq<Feature<G, P>>, broadband: seq<BroadbandRow>): (r: Reconciled<G, P>)
    ensures r.broadband == broadband
    ensures IsSubsequence(r.features, features)
    ensures multiset(r.features) <= multiset(features)
    ensures forall f :: f in r.features ==>
              NumericId(f).Num? && NumericId(f).value <= TerritoryCutoff && HasRow(broadband, NumericId(f))
    ensures forall f :: f in features && Survives(broadband, f) ==> f in r.features
  {
    var mainland := Filter(features, (f: Feature<G, P>) => NotTerritory(f));
    var broadbandIds := RowIds(broadband);
    var topoIds := FeatureIds(mainland);
    var noData := Filter(topoIds, (x: JsNumber) => IndexOf(broadbandIds, x) == -1);
    var kept := Filter(mainland, (f: Feature<G, P>) => IndexOf(noData, NumericId(f)) == -1);
    SourceFiltersKeepSurvivors(features, broadband);
    FilterIsSubsequence(features, (f: Feature<G, P>) => Survives(broadband, f));
    Reconciled(kept, broadband)
  }

  /** `indexOf` finds `x` in the broadband ids exactly when some row has that id. */
  lemma RowIdsIndexOf(rows: seq<BroadbandRow>, x: JsNumber)
    ensures IndexOf(RowIds(rows), x) != -1 <==> HasRow(rows, x)
  {
  }

  /**
    The double negation in the source (drop a county whose id is among the
    ids not found in the broadband table) keeps exactly the counties whose id
    is found there.
   */
  lemma NoDataMembership<G, P>(mainland: seq<Feature<G, P>>, rows: seq<BroadbandRow>, f: Feature<G, P>)
    requires f in mainland && NumericId(f).Num?
    ensures
      var broadbandIds := RowIds(rows);
      var noData := Filter(FeatureIds(mainland), (x: JsNumber) => IndexOf(broadbandIds, x) == -1);
      IndexOf(noData, NumericId(f)) == -1 <==> HasRow(rows, NumericId(f))
  {
  }

  /** The source's two filters keep what one filter by `Survives` keeps. */
  lemma SourceFiltersKeepSurvivors<G, P>(features: seq<Feature<G, P>>, broadband: seq<BroadbandRow>)
    ensures
      var notTerritory := (f: Feature<G, P>) => NotTerritory(f);
      var mainland := Filter(features, notTerritory);
      var broadbandIds := RowIds(broadband);
      var noData := Filter(FeatureIds(mainland), (x: JsNumber) => IndexOf(broadbandIds, x) == -1);
      Filter(mainland, (f: Feature<G, P>) => IndexOf(noData, NumericId(f)) == -1)
        == Filter(features, (f: Feature<G, P>) => Survives(broadband, f))
  {
    var notTerritory := (f: Feature<G, P>) => NotTerritory(f);
    var mainland := Filter(features, notTerritory);
    var broadbandIds := RowIds(broadband);
    var noData := Filter(FeatureIds(mainland), (x: JsNumber) => IndexOf(broadbandIds, x) == -1);
    var notNoData := (f: Feature<G, P>) => IndexOf(noData, NumericId(f)) == -1;
    var hasRow := (f: Feature<G, P>) => HasRow(broadband, NumericId(f));
    var survives := (f: Feature<G, P>) => Survives(broadband, f);
    forall i | 0 <= i < |mainland|
      ensures notNoData(mainland[i]) == hasRow(mainland[i])
    {
      assert mainland[i] in mainland;
      NoDataMembership(mainland, broadband, mainland[i]);
    }
    FilterCongruent(mainland, notNoData, hasRow);
    FilterFusion(features, notTerritory, hasRow, survives);
  }

  /** Reference definition: the reconciled features are the input filtered by `Survives`. */
  lemma FixDiscrepanciesIsFilter<G, P>(features: seq<Feature<G, P>>, broadband: seq<BroadbandRow>)
    ensures FixDiscrepancies(features, broadband).features
              == Filter(features, (f: Feature<G, P>) => Survives(broadband, f))
  {
    SourceFiltersKeepSurvivors(features, broadband);
  }

  /** Reconciling an already reconciled feature list against the same rows changes nothing. */
  lemma FixDiscrepanciesIdempotent<G, P>(features: seq<Feature<G, P>>, broadband: seq<BroadbandRow>)
    ensures
      var once := FixDiscrepancies(features, broadband);
      FixDiscrepancies(once.features, once.broadband) == once
  {
    var survives := (f: Feature<G, P>) => Survives(broadband, f);
    var once := FixDiscrepancies(features, broadband);
    FixDiscrepanciesIsFilter(features, broadband);
    FixDiscrepanciesIsFilter(once.features, broadband);
    FilterIdempotent(features, survives);
  }
}
